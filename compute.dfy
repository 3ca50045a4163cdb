/** The compute resource manager: banding of a dataset by size, routing of
    one job by its recommended compute type and the machine's memory load,
    and the sequential ordering of several jobs by size. The memory load is a
    parameter; reading it from the operating system is not modelled. */
module Compute {
  import opened Wrappers
  import opened PyValue
  import opened Sorting

  /** Where a job is processed. */
  datatype ComputeType = Local | Hybrid | Cloud

  function ComputeTypeName(t: ComputeType): string {
    match t
    case Local => "local"
    case Hybrid => "hybrid"
    case Cloud => "cloud"
  }

  /** Local < Hybrid < Cloud, by how much of the work leaves the machine. */
  function Rank(t: ComputeType): nat {
    match t
    case Local => 0
    case Hybrid => 1
    case Cloud => 2
  }

  /** The requirements record of a dataset. */
  datatype Requirements = Requirements(
    numComments: nat,
    computeType: ComputeType,
    memoryRequired: string,
    processingTime: string,
    recommendedAction: string)

  /** The size bands: below 1000 and below 10000 comments stay local, below
      100000 go hybrid, and everything larger goes to the cloud. */
  function AssessRequirements(numComments: nat): (r: Requirements)
    ensures r.numComments == numComments
    ensures r.computeType == Local <==> numComments < 10000
    ensures r.computeType == Hybrid <==> 10000 <= numComments < 100000
    ensures r.computeType == Cloud <==> 100000 <= numComments
    ensures numComments < 1000 ==> r.memoryRequired == "512MB"
    ensures 1000 <= numComments < 10000 ==> r.memoryRequired == "1GB"
    ensures 10000 <= numComments < 100000 ==> r.memoryRequired == "2GB"
    ensures 100000 <= numComments ==> r.memoryRequired == "4GB+"
    ensures r.recommendedAction == "Process " + ComputeTypeName(r.computeType)
  {
    var (t, memory, time) :=
      if numComments < 1000 then (Local, "512MB", "1-2 minutes")
      else if numComments < 10000 then (Local, "1GB", "5-10 minutes")
      else if numComments < 100000 then (Hybrid, "2GB", "30-60 minutes")
      else (Cloud, "4GB+", "2-4 hours");
    Requirements(numComments, t, memory, time, "Process " + ComputeTypeName(t))
  }

  /** A larger dataset never gets a more local compute type. */
  lemma AssessmentMonotone(m: nat, n: nat)
    requires m <= n
    ensures Rank(AssessRequirements(m).computeType) <= Rank(AssessRequirements(n).computeType)
  {
    var a, b := AssessRequirements(m), AssessRequirements(n);
    if a.computeType == Hybrid {
      assert b.computeType != Local;
    }
  }

  /** The requirements record as the dict the program passes around. */
  function RequirementsValue(r: Requirements): Value {
    Dict([("num_comments", Int(r.numComments)),
          ("compute_type", Str(ComputeTypeName(r.computeType))),
          ("memory_required", Str(r.memoryRequired)),
          ("processing_time", Str(r.processingTime)),
          ("recommended_action", Str(r.recommendedAction))])
  }

  /** The requirements of a job: `job.get("requirements", {})`. */
  function JobRequirements(job: seq<(string, Value)>): Value {
    GetOr(job, "requirements", Dict([]))
  }

  /** The route of one job. `None` stands for the call raising because the
      job's "requirements" value is not a dict. A missing requirements dict
      or compute type counts as local; a local job under a memory load of
      80% or more goes to the cloud, and so does any compute type other than
      local and hybrid. */
  function RouteProcessing(job: seq<(string, Value)>, memoryPercent: real): (r: Option<ComputeType>)
    ensures r.Some? <==> JobRequirements(job).Dict?
    ensures r == Some(Local) ==> memoryPercent < 80.0
    ensures !Has(job, "requirements") ==> r == Some(if memoryPercent < 80.0 then Local else Cloud)
    ensures r.Some? ==>
      var computeType := GetOr(JobRequirements(job).entries, "compute_type", Str("local"));
      && (r.value == Hybrid <==> computeType == Str("hybrid"))
      && (r.value == Local <==> computeType == Str("local") && memoryPercent < 80.0)
  {
    var requirements := JobRequirements(job);
    if !requirements.Dict? then None
    else
      var computeType := GetOr(requirements.entries, "compute_type", Str("local"));
      if computeType == Str("local") && memoryPercent < 80.0 then Some(Local)
      else if computeType == Str("hybrid") then Some(Hybrid)
      else Some(Cloud)
  }

  /** Routing the job built from an assessment: local only for a small
      dataset on a machine under 80% memory load, hybrid for a mid-sized one,
      and the cloud otherwise. */
  lemma RouteOfAssessment(numComments: nat, memoryPercent: real)
    ensures RouteProcessing([("requirements", RequirementsValue(AssessRequirements(numComments)))], memoryPercent)
         == Some(if numComments < 10000 && memoryPercent < 80.0 then Local
                 else if 10000 <= numComments < 100000 then Hybrid
                 else Cloud)
  {
    var r := AssessRequirements(numComments);
    var job := [("requirements", RequirementsValue(r))];
    assert JobRequirements(job) == RequirementsValue(r);
    var entries := RequirementsValue(r).entries;
    assert entries[1] == ("compute_type", Str(ComputeTypeName(r.computeType)));
    assert entries[0].0 != "compute_type";
    assert entries[1..][0] == entries[1];
    assert Lookup(entries[1..], "compute_type") == Some(Str(ComputeTypeName(r.computeType)));
  }

  /** The size value of a job, `job.get("requirements", {}).get("num_comments",
      0)`; `None` when the job or its requirements are not dicts, so that
      `.get` raises. */
  function RawKey(job: Value): (r: Option<Value>)
    ensures r.Some? <==> job.Dict? && JobRequirements(job.entries).Dict?
  {
    if !job.Dict? then None
    else
      var requirements := JobRequirements(job.entries);
      if !requirements.Dict? then None
      else Some(GetOr(requirements.entries, "num_comments", Int(0)))
  }

  /** A size value as a number, as Python compares it with `<`: an int, a
      float, or a bool as 1 or 0. */
  function NumericKey(v: Value): (r: Option<real>)
    ensures v.Int? ==> r == Some(v.i as real)
    ensures v.Float? ==> r == Some(v.r)
    ensures v.Bool? ==> r == Some(if v.b then 1.0 else 0.0)
    ensures r.Some? <==> v.Int? || v.Float? || v.Bool?
  {
    match v
    case Int(i) => Some(i as real)
    case Float(_, x) => Some(x)
    case Bool(b) => Some(if b then 1.0 else 0.0)
    case _ => None
  }

  /** The numeric size key of a job, when it has one. */
  function JobKey(job: Value): (r: Option<real>)
    ensures r.Some? <==> RawKey(job).Some? && NumericKey(RawKey(job).value).Some?
  {
    match RawKey(job)
    case None => None
    case Some(v) => NumericKey(v)
  }

  /** The jobs paired with their size keys, when every job has one. */
  function KeyedJobs(jobs: seq<Value>): (r: Option<seq<Keyed<Value>>>)
    ensures r.Some? <==> forall i :: 0 <= i < |jobs| ==> JobKey(jobs[i]).Some?
    ensures r.Some? ==> |r.value| == |jobs|
    ensures r.Some? ==> forall i :: 0 <= i < |jobs| ==>
              r.value[i].item == jobs[i] && JobKey(jobs[i]) == Some(r.value[i].key)
  {
    if jobs == [] then Some([])
    else
      var key := JobKey(jobs[0]);
      var rest := KeyedJobs(jobs[1..]);
      assert forall i :: 1 <= i < |jobs| ==> jobs[1..][i - 1] == jobs[i];
      if key.None? || rest.None? then None
      else Some([Keyed(jobs[0], key.value)] + rest.value)
  }

  /** The result of optimising several jobs. */
  datatype Allocation = Allocation(processingOrder: seq<Value>, resourceAllocation: string)

  /** The jobs in processing order: ascending size, stable. One job is
      never compared, so any size value will do; two or more jobs are ordered
      when every size is a number, and `None` otherwise. */
  function OrderedJobs(jobs: seq<Value>): Option<seq<Value>> {
    var keyed := KeyedJobs(jobs);
    if keyed.Some? then Some(Items(SortByKey(keyed.value)))
    else if |jobs| == 1 && RawKey(jobs[0]).Some? then Some(jobs)
    else None
  }

  /** `job.get("id")`; every job that gets this far is a dict. */
  function JobId(job: Value): Value {
    if job.Dict? then GetOr(job.entries, "id", Null) else Null
  }

  /** The ids of the jobs, in order. */
  function JobIds(jobs: seq<Value>): (r: seq<Value>)
    ensures |r| == |jobs|
    ensures forall i :: 0 <= i < |jobs| ==> r[i] == JobId(jobs[i])
  {
    if jobs == [] then []
    else [JobId(jobs[0])] + JobIds(jobs[1..])
  }

  /** The ids of the jobs in ascending size order, sequentially allocated;
      `None` when a job or its requirements are not dicts, or when two or
      more jobs are ordered and some size is not a number. */
  function OptimizeResources(jobs: seq<Value>): Option<Allocation> {
    var ordered := OrderedJobs(jobs);
    if ordered.None? then None
    else Some(Allocation(JobIds(ordered.value), "sequential"))
  }

  /** Items of two keyed sequences that are permutations of each other are
      permutations of each other. */
  lemma {:induction false} ItemsPermutation<T>(a: seq<Keyed<T>>, b: seq<Keyed<T>>)
    requires multiset(a) == multiset(b)
    ensures multiset(Items(a)) == multiset(Items(b))
    decreases |a|
  {
    if a == [] {
      assert |b| == |multiset(b)| == 0;
    } else {
      var x := a[0];
      assert x in multiset(b);
      var k :| 0 <= k < |b| && b[k] == x;
      var b' := RemoveAt(b, k);
      RemoveAtCount(b, k);
      RemoveAtItems(b, k);
      RemoveAtCount(a, 0);
      assert RemoveAt(a, 0) == a[1..];
      AddOneCancels(x, multiset(a[1..]), multiset(b'));
      ItemsPermutation(a[1..], b');
      RemoveAtItems(a, 0);
    }
  }

  /** Adding the same element to two multisets keeps them apart. */
  lemma AddOneCancels<T>(x: T, p: multiset<T>, q: multiset<T>)
    requires multiset{x} + p == multiset{x} + q
    ensures p == q
  {
    forall y ensures p[y] == q[y] {
      assert (multiset{x} + p)[y] == (multiset{x} + q)[y];
    }
  }

  /** `s` without its element at index `k`. */
  function RemoveAt<T>(s: seq<T>, k: nat): (r: seq<T>)
    requires k < |s|
  {
    s[..k] + s[k + 1..]
  }

  lemma RemoveAtCount<T>(s: seq<T>, k: nat)
    requires k < |s|
    ensures multiset(s) == multiset{s[k]} + multiset(RemoveAt(s, k))
  {
    assert s == s[..k] + [s[k]] + s[k + 1..];
  }

  lemma RemoveAtItems<T>(s: seq<Keyed<T>>, k: nat)
    requires k < |s|
    ensures multiset(Items(s)) == multiset{s[k].item} + multiset(Items(RemoveAt(s, k)))
  {
    ItemsRemoveAt(s, k);
    RemoveAtCount(Items(s), k);
  }

  /** Removing a keyed entry removes its item. */
  lemma ItemsRemoveAt<T>(s: seq<Keyed<T>>, k: nat)
    requires k < |s|
    ensures Items(RemoveAt(s, k)) == RemoveAt(Items(s), k)
  {
    var r := RemoveAt(s, k);
    forall i | 0 <= i < |r|
      ensures Items(r)[i] == RemoveAt(Items(s), k)[i]
    {
      if i < k { assert r[i] == s[i]; } else { assert r[i] == s[i + 1]; }
    }
  }

  /** The ordered jobs are a permutation of the input; when every job has
      a numeric size they ascend by size, and jobs of equal size keep their
      input order; otherwise there is exactly one job, left as it is. */
  lemma OrderedJobsShape(jobs: seq<Value>)
    requires OrderedJobs(jobs).Some?
    ensures var s := OrderedJobs(jobs).value;
      && multiset(s) == multiset(jobs)
      && (forall i :: 0 <= i < |s| ==> RawKey(s[i]).Some?)
      && (KeyedJobs(jobs).None? ==> |jobs| == 1 && s == jobs)
      && (KeyedJobs(jobs).Some? ==>
            && (forall i :: 0 <= i < |s| ==> JobKey(s[i]).Some?)
            && (forall i, j :: 0 <= i < j < |s| ==> JobKey(s[i]).value <= JobKey(s[j]).value)
            && (forall k :: Items(WithKey(SortByKey(KeyedJobs(jobs).value), k))
                            == Items(WithKey(KeyedJobs(jobs).value, k))))
  {
    if KeyedJobs(jobs).Some? {
      var keyed := KeyedJobs(jobs).value;
      assert OrderedJobs(jobs).value == Items(SortByKey(keyed));
      SortedJobsPermutation(jobs, keyed);
      SortedJobKeys(jobs, keyed);
      SortByKeyShape(keyed);
    }
  }

  /** Every job with numeric size is ordered, and so is a single job whose
      size can be read, whatever its size value. */
  lemma OrderedJobsDefined(jobs: seq<Value>)
    ensures (forall i :: 0 <= i < |jobs| ==> JobKey(jobs[i]).Some?) ==> OrderedJobs(jobs).Some?
    ensures |jobs| == 1 && RawKey(jobs[0]).Some? ==> OrderedJobs(jobs) == Some(jobs)
  {
    if |jobs| == 1 && RawKey(jobs[0]).Some? && KeyedJobs(jobs).Some? {
      var keyed := KeyedJobs(jobs).value;
      assert keyed == [keyed[0]] && keyed[0].item == jobs[0];
      assert SortByKey(keyed) == [keyed[0]];
      assert Items([keyed[0]]) == [jobs[0]] == jobs;
    }
  }

  /** One job with a numeric size is keyed by that size. */
  lemma KeyedJobsOfOne(job: Value)
    requires JobKey(job).Some?
    ensures KeyedJobs([job]) == Some([Keyed(job, JobKey(job).value)])
  {
    assert [job][1..] == [];
    assert KeyedJobs([]) == Some([]);
    var k := Keyed(job, JobKey(job).value);
    assert [k] + [] == [k];
  }

  /** A single job is ordered whatever its size value, here a float. */
  lemma SingleFloatJob()
    ensures OptimizeResources([Dict([("id", Str("a")),
                                     ("requirements", Dict([("num_comments", Float("2.5", 2.5))]))])])
         == Some(Allocation([Str("a")], "sequential"))
  {
    var a := Dict([("id", Str("a")), ("requirements", Dict([("num_comments", Float("2.5", 2.5))]))]);
    assert JobRequirements(a.entries) == Dict([("num_comments", Float("2.5", 2.5))]);
    assert JobKey(a) == Some(2.5);
    KeyedJobsOfOne(a);
    assert SortByKey([Keyed(a, 2.5)]) == [Keyed(a, 2.5)];
    assert JobIds([a]) == [Str("a")];
  }

  /** A float size and an int size are compared as numbers: 1 comes before
      2.5. */
  lemma FloatAndIntJobs()
    ensures OptimizeResources([Dict([("id", Str("a")),
                                     ("requirements", Dict([("num_comments", Float("2.5", 2.5))]))]),
                               Dict([("id", Str("b")),
                                     ("requirements", Dict([("num_comments", Int(1))]))])])
         == Some(Allocation([Str("b"), Str("a")], "sequential"))
  {
    var a := Dict([("id", Str("a")), ("requirements", Dict([("num_comments", Float("2.5", 2.5))]))]);
    var b := Dict([("id", Str("b")), ("requirements", Dict([("num_comments", Int(1))]))]);
    assert JobRequirements(a.entries) == Dict([("num_comments", Float("2.5", 2.5))]);
    assert JobRequirements(b.entries) == Dict([("num_comments", Int(1))]);
    assert JobKey(a) == Some(2.5) && JobKey(b) == Some(1.0);
    KeyedJobsOfOne(b);
    assert KeyedJobs([a, b]) == Some([Keyed(a, 2.5), Keyed(b, 1.0)]) by {
      assert [a, b][1..] == [b];
      assert [Keyed(a, 2.5)] + [Keyed(b, 1.0)] == [Keyed(a, 2.5), Keyed(b, 1.0)];
    }
    assert SortByKey([Keyed(b, 1.0)]) == [Keyed(b, 1.0)];
    assert SortByKey([Keyed(a, 2.5), Keyed(b, 1.0)]) == [Keyed(b, 1.0), Keyed(a, 2.5)] by {
      assert [Keyed(a, 2.5), Keyed(b, 1.0)][1..] == [Keyed(b, 1.0)];
      assert Insert(Keyed(a, 2.5), [Keyed(b, 1.0)]) == [Keyed(b, 1.0), Keyed(a, 2.5)] by {
        assert [Keyed(b, 1.0)][1..] == [];
      }
    }
    assert Items([Keyed(b, 1.0), Keyed(a, 2.5)]) == [b, a];
    assert JobIds([b, a]) == [Str("b"), Str("a")] by {
      assert [b, a][1..] == [a];
    }
  }

  /** Sorting the keyed jobs loses and adds no job. */
  lemma SortedJobsPermutation(jobs: seq<Value>, keyed: seq<Keyed<Value>>)
    requires KeyedJobs(jobs) == Some(keyed)
    ensures multiset(Items(SortByKey(keyed))) == multiset(jobs)
  {
    SortByKeyShape(keyed);
    ItemsPermutation(SortByKey(keyed), keyed);
    assert Items(keyed) == jobs;
  }

  /** The sorted jobs each have a size key, and the keys ascend. */
  lemma SortedJobKeys(jobs: seq<Value>, keyed: seq<Keyed<Value>>)
    requires KeyedJobs(jobs) == Some(keyed)
    ensures var s := Items(SortByKey(keyed));
      && (forall i :: 0 <= i < |s| ==> JobKey(s[i]).Some?)
      && (forall i, j :: 0 <= i < j < |s| ==> JobKey(s[i]).value <= JobKey(s[j]).value)
  {
    var sorted := SortByKey(keyed);
    SortByKeyShape(keyed);
    forall i | 0 <= i < |sorted|
      ensures JobKey(sorted[i].item) == Some(sorted[i].key)
    {
      assert sorted[i] in multiset(keyed);
      var k :| 0 <= k < |keyed| && keyed[k] == sorted[i];
    }
  }

  /** Optimising lists one id per job, in the order of the sorted jobs. */
  lemma OptimizeOrder(jobs: seq<Value>)
    requires OptimizeResources(jobs).Some?
    ensures var a := OptimizeResources(jobs).value;
      var s := OrderedJobs(jobs).value;
      && a.resourceAllocation == "sequential"
      && |a.processingOrder| == |jobs| == |s|
      && forall i :: 0 <= i < |s| ==> a.processingOrder[i] == JobId(s[i]) && s[i].Dict?
  {
    OrderedJobsShape(jobs);
    var s := OrderedJobs(jobs).value;
    assert |multiset(s)| == |multiset(jobs)|;
  }
}
