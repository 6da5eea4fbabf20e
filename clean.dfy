/**
 * pyznap's retention cleaner (pyznap/clean.py).
 *
 * `clean_filesystem` sorts a dataset's pyznap- and sanoid-named snapshots
 * into one bucket per snapshot type, turns each bucket newest first and
 * destroys everything past the configured keep-count of the type.  The
 * dataset's listing and each `destroy()` call are external; the listing is
 * an input (`None` when ZFS reports the dataset missing or busy) and the
 * outcome of destroying a snapshot is a parameter `destroy`.  The model
 * returns the destroy calls it issues, in order.
 */
module Clean {
  import opened Wrappers
  import opened Text
  import opened Snapshots

  /** clean accepts snapshots taken by pyznap and by sanoid (pyznap/clean.py:69). */
  const CleanPrefixes: seq<string> := ["pyznap", "autosnap"]

  /**
   * The keep-count `conf[stype]` of each type.  The configuration loader
   * leaves an unset count as `None`; a type that is not a key at all makes
   * `conf[stype]` raise `KeyError`.
   */
  type Quotas = map<string, Option<int>>

  /** The start index of Python's `lst[k:]` on a list of length `n` (`None` and negatives included). */
  function SliceStart(n: nat, k: Option<int>): (r: nat)
    ensures r <= n
  {
    match k
    case None => 0
    case Some(c) =>
      if c >= 0 then (if c < n then c else n)
      else (if n + c > 0 then n + c else 0)
  }

  /** Python's `lst[k:]`. */
  function SliceFrom(s: seq<string>, k: Option<int>): seq<string>
  {
    s[SliceStart(|s|, k)..]
  }

  /** `snapshots[stype][conf[stype]:]` once the bucket is newest first. */
  function Doomed(bucket: seq<string>, k: Option<int>): seq<string>
  {
    SliceFrom(Reverse(bucket), k)
  }

  /** A keep-count that keeps a natural number of snapshots: unset or non-negative. */
  predicate SaneQuota(k: Option<int>)
  {
    k.None? || k.value >= 0
  }

  /** How many snapshots of a bucket of `n` survive the slice: `min(k, n)`, nothing for `None`. */
  function KeptCount(n: nat, k: Option<int>): nat
    requires SaneQuota(k)
  {
    match k
    case None => 0
    case Some(c) => if c < n then c else n
  }

  /**
   * What is destroyed of a bucket are exactly its oldest snapshots, newest of
   * them first; the newest `KeptCount` survive.
   */
  lemma DoomedAreOldest(bucket: seq<string>, k: Option<int>)
    ensures Doomed(bucket, k) == Reverse(bucket[..|bucket| - SliceStart(|bucket|, k)])
    ensures SaneQuota(k) ==> SliceStart(|bucket|, k) == KeptCount(|bucket|, k)
  {
    var m := |bucket| - SliceStart(|bucket|, k);
    assert bucket == bucket[..m] + bucket[m..];
    ReverseConcat(bucket[..m], bucket[m..]);
  }

  /** For a count `c >= 0`, exactly `max(0, len(bucket) - c)` snapshots are destroyed; all of them for `None`. */
  lemma DoomedCount(bucket: seq<string>, k: Option<int>)
    requires SaneQuota(k)
    ensures k.Some? ==> |Doomed(bucket, k)| == if |bucket| > k.value then |bucket| - k.value else 0
    ensures k.None? ==> |Doomed(bucket, k)| == |bucket|
  {
  }

  /** Every doomed snapshot comes from the bucket. */
  lemma DoomedInBucket(bucket: seq<string>, k: Option<int>, x: string)
    requires x in Doomed(bucket, k)
    ensures x in bucket
  {
    ReverseMultiset(bucket);
    assert x in Reverse(bucket);
    assert x in multiset(Reverse(bucket));
  }

  /** Doomed snapshots of a duplicate-free bucket are themselves free of duplicates. */
  lemma DoomedNoDuplicates(bucket: seq<string>, k: Option<int>)
    requires NoDuplicates(bucket)
    ensures NoDuplicates(Doomed(bucket, k))
  {
    ReverseNoDuplicates(bucket);
    var r := Reverse(bucket);
    var d := Doomed(bucket, k);
    var st := SliceStart(|bucket|, k);
    forall i, j | 0 <= i < j < |d| ensures d[i] != d[j] {
      assert d[i] == r[st + i] && d[j] == r[st + j];
    }
  }

  // ---- the destroy plan -----------------------------------------------------

  /**
   * The snapshots `clean_filesystem` sets out to destroy, in order, and the
   * type whose missing keep-count stopped it (`KeyError`), if any.
   */
  datatype Schedule = Schedule(plan: seq<string>, missing: Option<string>)

  /** The plan for `reversed(types[..j])`: the type `types[j-1]` first, then the ones before it. */
  function PlanThrough(snaps: seq<string>, types: seq<string>, conf: Quotas, j: nat): Schedule
    requires AllSnapshotNames(snaps) && j <= |types|
    decreases j
  {
    if j == 0 then Schedule([], None)
    else
      var t := types[j - 1];
      if t !in conf then Schedule([], Some(t))
      else
        var rest := PlanThrough(snaps, types, conf, j - 1);
        Schedule(Doomed(Bucket(snaps, CleanPrefixes, t), conf[t]) + rest.plan, rest.missing)
  }

  function Plan(snaps: seq<string>, types: seq<string>, conf: Quotas): Schedule
    requires AllSnapshotNames(snaps)
  {
    PlanThrough(snaps, types, conf, |types|)
  }

  // ---- carrying out the plan ------------------------------------------------

  /** What `snap.destroy()` does to one snapshot: succeed, or raise one of the errors `clean_snap` handles. */
  datatype DestroyOutcome = Removed | Busy | CommandFailed | KeyboardInterrupt

  /** The destroy calls issued, the ones that succeeded, and whether a `KeyboardInterrupt` ended the run. */
  datatype Run = Run(attempted: seq<string>, destroyed: seq<string>, interrupted: bool)

  /**
   * `clean_snap` over the plan: a busy dataset or a failed command is logged
   * and the next snapshot is tried; a `KeyboardInterrupt` is re-raised, so
   * nothing after it is tried.
   */
  function Execute(plan: seq<string>, destroy: string -> DestroyOutcome): Run
  {
    if plan == [] then Run([], [], false)
    else
      var r := Execute(plan[..|plan| - 1], destroy);
      if r.interrupted then r
      else
        var x := plan[|plan| - 1];
        var o := destroy(x);
        Run(r.attempted + [x], r.destroyed + (if o == Removed then [x] else []), o == KeyboardInterrupt)
  }

  /** Once interrupted, the rest of the plan changes nothing. */
  lemma {:induction false} ExecuteStops(p: seq<string>, q: seq<string>, destroy: string -> DestroyOutcome)
    requires Execute(p, destroy).interrupted
    ensures Execute(p + q, destroy) == Execute(p, destroy)
    decreases |q|
  {
    if q != [] {
      var a := p + q;
      assert a[..|a| - 1] == p + q[..|q| - 1];
      ExecuteStops(p, q[..|q| - 1], destroy);
      assert Execute(a, destroy) == Execute(a[..|a| - 1], destroy);
    } else {
      assert p + q == p;
    }
  }

  /** Executing one more planned snapshot. */
  lemma ExecuteSnoc(p: seq<string>, x: string, destroy: string -> DestroyOutcome)
    ensures Execute(p + [x], destroy) ==
      var r := Execute(p, destroy);
      if r.interrupted then r
      else Run(r.attempted + [x], r.destroyed + (if destroy(x) == Removed then [x] else []), destroy(x) == KeyboardInterrupt)
  {
    assert (p + [x])[..|p + [x]| - 1] == p;
  }

  /**
   * The calls issued are a prefix of the plan that ends at the first
   * interrupted one (the whole plan without an interrupt); the destroyed
   * snapshots are the attempted ones whose destroy succeeded.
   */
  lemma {:induction false} ExecuteShape(plan: seq<string>, destroy: string -> DestroyOutcome)
    ensures var r := Execute(plan, destroy);
      && r.attempted <= plan
      && (r.interrupted <==> r.attempted != [] && destroy(r.attempted[|r.attempted| - 1]) == KeyboardInterrupt)
      && (forall i :: 0 <= i < |r.attempted| - 1 ==> destroy(r.attempted[i]) != KeyboardInterrupt)
      && (!r.interrupted ==> r.attempted == plan)
      && (forall x :: x in r.destroyed <==> x in r.attempted && destroy(x) == Removed)
  {
    ExecutePrefix(plan, destroy);
    ExecuteInterrupts(plan, destroy);
    ExecuteDestroyed(plan, destroy);
  }

  /** The attempted snapshots are a prefix of the plan, all of it unless interrupted. */
  lemma {:induction false} ExecutePrefix(plan: seq<string>, destroy: string -> DestroyOutcome)
    ensures var r := Execute(plan, destroy);
            r.attempted <= plan && (!r.interrupted ==> r.attempted == plan)
    decreases |plan|
  {
    if plan != [] {
      var init, x := plan[..|plan| - 1], plan[|plan| - 1];
      assert plan == init + [x];
      ExecutePrefix(init, destroy);
      var r0 := Execute(init, destroy);
      if !r0.interrupted {
        assert Execute(plan, destroy).attempted == init + [x];
      } else {
        assert init <= plan;
      }
    }
  }

  /** A run is interrupted exactly when its last attempt was, and no earlier attempt was. */
  lemma {:induction false} ExecuteInterrupts(plan: seq<string>, destroy: string -> DestroyOutcome)
    ensures var r := Execute(plan, destroy);
            && (r.interrupted <==> r.attempted != [] && destroy(r.attempted[|r.attempted| - 1]) == KeyboardInterrupt)
            && (forall i :: 0 <= i < |r.attempted| - 1 ==> destroy(r.attempted[i]) != KeyboardInterrupt)
    decreases |plan|
  {
    if plan != [] {
      var init, x := plan[..|plan| - 1], plan[|plan| - 1];
      ExecuteInterrupts(init, destroy);
      var r0 := Execute(init, destroy);
      if !r0.interrupted {
        var a := r0.attempted + [x];
        assert Execute(plan, destroy).attempted == a;
        forall i | 0 <= i < |a| - 1 ensures destroy(a[i]) != KeyboardInterrupt {
          assert a[i] == r0.attempted[i];
        }
      }
    }
  }

  /** A snapshot is destroyed exactly when it was attempted and its destroy succeeded. */
  lemma {:induction false} ExecuteDestroyed(plan: seq<string>, destroy: string -> DestroyOutcome)
    ensures var r := Execute(plan, destroy);
            forall x :: x in r.destroyed <==> x in r.attempted && destroy(x) == Removed
    decreases |plan|
  {
    if plan != [] {
      var init, y := plan[..|plan| - 1], plan[|plan| - 1];
      ExecuteDestroyed(init, destroy);
      var r0 := Execute(init, destroy);
      if !r0.interrupted {
        var r := Execute(plan, destroy);
        assert r.attempted == r0.attempted + [y];
        assert r.destroyed == r0.destroyed + (if destroy(y) == Removed then [y] else []);
      }
    }
  }

  /** Without an interrupt every planned snapshot is tried, whatever the earlier ones did. */
  lemma ExecuteContinuesPastFailures(plan: seq<string>, destroy: string -> DestroyOutcome)
    requires forall i :: 0 <= i < |plan| ==> destroy(plan[i]) != KeyboardInterrupt
    ensures Execute(plan, destroy).attempted == plan && !Execute(plan, destroy).interrupted
  {
    ExecuteShape(plan, destroy);
  }

  /**
   * `for snap in victims: clean_snap(snap)`, continuing the run that
   * `done` already produced.
   */
  method DestroyEach(victims: seq<string>, destroy: string -> DestroyOutcome, ghost done: seq<string>,
                     attempted0: seq<string>, destroyed0: seq<string>)
    returns (attempted: seq<string>, destroyed: seq<string>, interrupted: bool)
    requires Execute(done, destroy) == Run(attempted0, destroyed0, false)
    ensures Execute(done + victims, destroy) == Run(attempted, destroyed, interrupted)
  {
    attempted, destroyed, interrupted := attempted0, destroyed0, false;
    assert done + victims[..0] == done;
    var m := 0;
    while m < |victims|
      invariant 0 <= m <= |victims|
      invariant Execute(done + victims[..m], destroy) == Run(attempted, destroyed, false)
    {
      var snap := victims[m];
      var outcome := destroy(snap);
      DestroyStep(done, victims, m, destroy);
      attempted := attempted + [snap];
      if outcome == Removed {
        destroyed := destroyed + [snap];
      }
      if outcome == KeyboardInterrupt {
        interrupted := true;
        InterruptedRest(done, victims, m + 1, destroy);
        return;
      }
      m := m + 1;
    }
    assert victims[..m] == victims;
  }

  /** Running one more victim extends the run by that victim's destroy call. */
  lemma DestroyStep(done: seq<string>, victims: seq<string>, m: nat, destroy: string -> DestroyOutcome)
    requires m < |victims| && !Execute(done + victims[..m], destroy).interrupted
    ensures var r, x := Execute(done + victims[..m], destroy), victims[m];
            Execute(done + victims[..m + 1], destroy) ==
              Run(r.attempted + [x], r.destroyed + (if destroy(x) == Removed then [x] else []),
                  destroy(x) == KeyboardInterrupt)
  {
    ExecuteSnoc(done + victims[..m], victims[m], destroy);
    assert done + victims[..m + 1] == done + victims[..m] + [victims[m]];
  }

  /** After an interrupt the remaining victims leave the run as it is. */
  lemma InterruptedRest(done: seq<string>, victims: seq<string>, m: nat, destroy: string -> DestroyOutcome)
    requires m <= |victims| && Execute(done + victims[..m], destroy).interrupted
    ensures Execute(done + victims, destroy) == Execute(done + victims[..m], destroy)
  {
    ExecuteStops(done + victims[..m], victims[m..], destroy);
    assert victims == victims[..m] + victims[m..];
    assert done + victims[..m] + victims[m..] == done + victims;
  }

  // ---- clean_filesystem -----------------------------------------------------

  datatype CleanStatus =
    | Completed
    | OpenFailed              // listing raised DatasetNotFoundError/DatasetBusyError: `return 1`
    | QuotaKeyError(stype: string)  // `conf[stype]` raised KeyError
    | Interrupted             // a KeyboardInterrupt was re-raised

  datatype CleanReport = CleanReport(status: CleanStatus, attempted: seq<string>, destroyed: seq<string>)

  /** The outcome of `clean_filesystem` as a function of the listing, the configuration and the destroy outcomes. */
  function CleanSpec(listing: Option<seq<string>>, types: seq<string>, conf: Quotas,
                     destroy: string -> DestroyOutcome): CleanReport
    requires listing.Some? ==> AllSnapshotNames(listing.value)
  {
    match listing
    case None => CleanReport(OpenFailed, [], [])
    case Some(snaps) => ReportOf(Plan(snaps, types, conf), destroy)
  }

  /** The report of carrying out a schedule: its run, and why it stopped. */
  function ReportOf(sch: Schedule, destroy: string -> DestroyOutcome): CleanReport
  {
    var run := Execute(sch.plan, destroy);
    var status := if run.interrupted then Interrupted
                  else if sch.missing.Some? then QuotaKeyError(sch.missing.value)
                  else Completed;
    CleanReport(status, run.attempted, run.destroyed)
  }

  /**
   * `clean_filesystem(filesystem, conf)`, with `SNAPSHOT_TYPES` as `types`.
   */
  method CleanFilesystem(listing: Option<seq<string>>, types: seq<string>, conf: Quotas,
                         destroy: string -> DestroyOutcome)
    returns (report: CleanReport)
    requires Distinct(types)
    requires listing.Some? ==> AllSnapshotNames(listing.value)
    ensures listing.None? ==> report == CleanReport(OpenFailed, [], [])
    ensures report == CleanSpec(listing, types, conf, destroy)
  {
    if listing.None? {
      return CleanReport(OpenFailed, [], []);
    }
    var snaps := listing.value;
    var buckets := Categorize(snaps, types, CleanPrefixes);
    buckets := ReverseBuckets(buckets, types);
    report := DestroyBeyondQuotas(snaps, buckets, types, conf, destroy);
  }

  /**
   * `for stype in reversed(SNAPSHOT_TYPES): for snap in snapshots[stype][conf[stype]:]: clean_snap(snap)`,
   * over the buckets once they are newest first.
   */
  method DestroyBeyondQuotas(snaps: seq<string>, buckets: map<string, seq<string>>, types: seq<string>,
                             conf: Quotas, destroy: string -> DestroyOutcome)
    returns (report: CleanReport)
    requires AllSnapshotNames(snaps)
    requires forall t :: t in types ==> t in buckets && buckets[t] == Reverse(Bucket(snaps, CleanPrefixes, t))
    ensures report == CleanSpec(Some(snaps), types, conf, destroy)
  {
    report := DestroyBuckets(buckets, types, conf, destroy);
    BucketPlanIsPlan(snaps, buckets, types, conf, |types|);
  }

  /**
   * The plan read off newest-first buckets: `buckets[t][conf[t]:]` for each
   * type of `reversed(types[..j])`, up to the first type without a keep-count.
   */
  function BucketPlan(buckets: map<string, seq<string>>, types: seq<string>, conf: Quotas, j: nat): Schedule
    requires j <= |types|
    decreases j
  {
    if j == 0 then Schedule([], None)
    else
      var t := types[j - 1];
      if t !in conf then Schedule([], Some(t))
      else
        var rest := BucketPlan(buckets, types, conf, j - 1);
        Schedule(SliceFrom(if t in buckets then buckets[t] else [], conf[t]) + rest.plan, rest.missing)
  }

  /** Over the buckets `clean_filesystem` builds, reading the plan off the buckets gives the plan. */
  lemma {:induction false} BucketPlanIsPlan(snaps: seq<string>, buckets: map<string, seq<string>>,
                                            types: seq<string>, conf: Quotas, j: nat)
    requires AllSnapshotNames(snaps) && j <= |types|
    requires forall t :: t in types ==> t in buckets && buckets[t] == Reverse(Bucket(snaps, CleanPrefixes, t))
    ensures BucketPlan(buckets, types, conf, j) == PlanThrough(snaps, types, conf, j)
    decreases j
  {
    if j > 0 && types[j - 1] in conf {
      var t := types[j - 1];
      BucketPlanIsPlan(snaps, buckets, types, conf, j - 1);
      assert t in types;
      BucketPlanStep(snaps, buckets, types, conf, j);
    }
  }

  lemma BucketPlanStep(snaps: seq<string>, buckets: map<string, seq<string>>, types: seq<string>, conf: Quotas,
                       j: nat)
    requires AllSnapshotNames(snaps) && 0 < j <= |types| && types[j - 1] in conf
    requires types[j - 1] in buckets && buckets[types[j - 1]] == Reverse(Bucket(snaps, CleanPrefixes, types[j - 1]))
    requires BucketPlan(buckets, types, conf, j - 1) == PlanThrough(snaps, types, conf, j - 1)
    ensures BucketPlan(buckets, types, conf, j) == PlanThrough(snaps, types, conf, j)
  {
  }

  /** The destroy loop of `clean_filesystem` over newest-first buckets. */
  method DestroyBuckets(buckets: map<string, seq<string>>, types: seq<string>, conf: Quotas,
                        destroy: string -> DestroyOutcome)
    returns (report: CleanReport)
    requires forall t :: t in types ==> t in buckets
    ensures report == ReportOf(BucketPlan(buckets, types, conf, |types|), destroy)
  {
    ghost var whole := BucketPlan(buckets, types, conf, |types|);
    var attempted: seq<string>, destroyed: seq<string> := [], [];
    ghost var done: seq<string> := [];
    var j := |types|;
    while j > 0
      invariant 0 <= j <= |types|
      invariant whole.plan == done + BucketPlan(buckets, types, conf, j).plan
      invariant whole.missing == BucketPlan(buckets, types, conf, j).missing
      invariant Execute(done, destroy) == Run(attempted, destroyed, false)
    {
      var stype := types[j - 1];
      if stype !in conf {
        assert done + [] == done;
        return CleanReport(QuotaKeyError(stype), attempted, destroyed);
      }
      var victims := SliceFrom(buckets[stype], conf[stype]);
      ghost var rest := BucketPlan(buckets, types, conf, j - 1).plan;
      assert whole.plan == (done + victims) + rest;
      var interrupted;
      attempted, destroyed, interrupted := DestroyEach(victims, destroy, done, attempted, destroyed);
      if interrupted {
        ExecuteStops(done + victims, rest, destroy);
        return CleanReport(Interrupted, attempted, destroyed);
      }
      done := done + victims;
      j := j - 1;
    }
    assert done + [] == done;
    return CleanReport(Completed, attempted, destroyed);
  }

  // ---- properties of the plan -------------------------------------------

  /** Every planned snapshot is a listed pyznap or sanoid snapshot of one of the types `types[..j]`. */
  lemma {:induction false} PlanMembers(snaps: seq<string>, types: seq<string>, conf: Quotas, j: nat, x: string)
    requires AllSnapshotNames(snaps) && j <= |types|
    requires x in PlanThrough(snaps, types, conf, j).plan
    ensures x in snaps && IsSnapshotName(x)
    ensures HasAnyPrefix(SnapPart(x), CleanPrefixes) && TypeOf(x) in types[..j]
    decreases j
  {
    var t := types[j - 1];
    var bucket := Bucket(snaps, CleanPrefixes, t);
    var d := Doomed(bucket, conf[t]);
    assert PlanThrough(snaps, types, conf, j).plan == d + PlanThrough(snaps, types, conf, j - 1).plan;
    InPrefixStep(types, j, TypeOf(x));
    if x in d {
      DoomedInBucket(bucket, conf[t], x);
      BucketMembers(snaps, CleanPrefixes, t, x);
    } else {
      PlanMembers(snaps, types, conf, j - 1, x);
    }
  }

  /** Distinct types sit at distinct positions: the type at position k is found nowhere before k. */
  lemma DistinctPrefix(types: seq<string>, k: nat)
    requires Distinct(types) && k < |types|
    ensures types[k] !in types[..k]
  {
    forall i | 0 <= i < k ensures types[..k][i] != types[k] {
      assert types[i] != types[k];
    }
  }

  /** Two duplicate-free sequences with no common element concatenate to a duplicate-free one. */
  lemma ConcatNoDuplicates(a: seq<string>, b: seq<string>)
    requires NoDuplicates(a) && NoDuplicates(b)
    requires forall x :: x in a ==> x !in b
    ensures NoDuplicates(a + b)
  {
    var c := a + b;
    forall i, j | 0 <= i < j < |c| ensures c[i] != c[j] {
      if i < |a| && j >= |a| {
        assert c[i] in a && c[j] == b[j - |a|];
      }
    }
  }

  /** Each snapshot lands in at most one bucket, so no snapshot is planned for destruction twice. */
  lemma {:induction false} PlanNoDuplicates(snaps: seq<string>, types: seq<string>, conf: Quotas, j: nat)
    requires AllSnapshotNames(snaps) && NoDuplicates(snaps) && Distinct(types) && j <= |types|
    ensures NoDuplicates(PlanThrough(snaps, types, conf, j).plan)
    decreases j
  {
    if j > 0 && types[j - 1] in conf {
      PlanNoDuplicates(snaps, types, conf, j - 1);
      DoomedOfBucketNoDuplicates(snaps, types[j - 1], conf[types[j - 1]]);
      PlanNoDuplicatesStep(snaps, types, conf, j);
    }
  }

  /** With distinct listed names, no snapshot is doomed twice within one bucket. */
  lemma DoomedOfBucketNoDuplicates(snaps: seq<string>, t: string, k: Option<int>)
    requires AllSnapshotNames(snaps) && NoDuplicates(snaps)
    ensures NoDuplicates(Doomed(Bucket(snaps, CleanPrefixes, t), k))
  {
    BucketNoDuplicates(snaps, CleanPrefixes, t);
    DoomedNoDuplicates(Bucket(snaps, CleanPrefixes, t), k);
  }

  /** One step of `PlanNoDuplicates`: a duplicate-free bucket put before a duplicate-free, disjoint plan. */
  lemma PlanNoDuplicatesStep(snaps: seq<string>, types: seq<string>, conf: Quotas, j: nat)
    requires AllSnapshotNames(snaps) && Distinct(types) && 0 < j <= |types| && types[j - 1] in conf
    requires NoDuplicates(Doomed(Bucket(snaps, CleanPrefixes, types[j - 1]), conf[types[j - 1]]))
    requires NoDuplicates(PlanThrough(snaps, types, conf, j - 1).plan)
    ensures NoDuplicates(PlanThrough(snaps, types, conf, j).plan)
  {
    var t := types[j - 1];
    var d := Doomed(Bucket(snaps, CleanPrefixes, t), conf[t]);
    var rest := PlanThrough(snaps, types, conf, j - 1).plan;
    PlanDisjoint(snaps, types, conf, j);
    ConcatNoDuplicates(d, rest);
    assert PlanThrough(snaps, types, conf, j).plan == d + rest;
  }

  /** The bucket planned at step `j` shares no snapshot with the plan for the earlier types. */
  lemma PlanDisjoint(snaps: seq<string>, types: seq<string>, conf: Quotas, j: nat)
    requires AllSnapshotNames(snaps) && Distinct(types) && 0 < j <= |types| && types[j - 1] in conf
    ensures var t := types[j - 1];
            forall x :: x in Doomed(Bucket(snaps, CleanPrefixes, t), conf[t]) ==>
              x !in PlanThrough(snaps, types, conf, j - 1).plan
  {
    var t := types[j - 1];
    var rest := PlanThrough(snaps, types, conf, j - 1).plan;
    DistinctPrefix(types, j - 1);
    DoomedOfType(snaps, t, conf[t]);
    forall y | y in rest ensures TypeOf(y) != t {
      PlanMembers(snaps, types, conf, j - 1, y);
    }
  }

  /** The snapshots of `s` whose type is `t`, in order. */
  function OfType(s: seq<string>, t: string): seq<string>
  {
    if s == [] then []
    else OfType(s[..|s| - 1], t) + (if TypeOf(s[|s| - 1]) == t then [s[|s| - 1]] else [])
  }

  lemma {:induction false} OfTypeConcat(a: seq<string>, b: seq<string>, t: string)
    ensures OfType(a + b, t) == OfType(a, t) + OfType(b, t)
    decreases |b|
  {
    if b == [] {
      assert a + b == a;
    } else {
      var c, init, last := a + b, b[..|b| - 1], b[|b| - 1];
      var tail: seq<string> := if TypeOf(last) == t then [last] else [];
      assert c[..|c| - 1] == a + init && c[|c| - 1] == last;
      assert OfType(c, t) == OfType(a + init, t) + tail;
      OfTypeConcat(a, init, t);
      assert OfType(b, t) == OfType(init, t) + tail;
    }
  }

  lemma {:induction false} OfTypeAll(s: seq<string>, t: string)
    requires forall x :: x in s ==> TypeOf(x) == t
    ensures OfType(s, t) == s
    decreases |s|
  {
    if s != [] {
      var init, last := s[..|s| - 1], s[|s| - 1];
      assert s == init + [last];
      assert TypeOf(last) == t;
      OfTypeAll(init, t);
      assert OfType(s, t) == OfType(init, t) + [last];
    }
  }

  lemma {:induction false} OfTypeNone(s: seq<string>, t: string)
    requires forall x :: x in s ==> TypeOf(x) != t
    ensures OfType(s, t) == []
    decreases |s|
  {
    if s != [] {
      var init, last := s[..|s| - 1], s[|s| - 1];
      assert s == init + [last];
      assert TypeOf(last) != t;
      OfTypeNone(init, t);
      assert OfType(s, t) == OfType(init, t);
    }
  }

  lemma {:induction false} OfTypeMembers(s: seq<string>, t: string, x: string)
    ensures x in OfType(s, t) <==> x in s && TypeOf(x) == t
    decreases |s|
  {
    if s != [] {
      OfTypeMembers(s[..|s| - 1], t, x);
      assert s == s[..|s| - 1] + [s[|s| - 1]];
    }
  }

  /** Every type is (as far as the plan got) a key of the configuration. */
  ghost predicate AllQuotasSet(types: seq<string>, conf: Quotas)
  {
    forall k :: 0 <= k < |types| ==> types[k] in conf
  }

  /** What the bucket of `t` contributes to the plan when `t` has a keep-count. */
  function Scheduled(snaps: seq<string>, conf: Quotas, t: string): seq<string>
    requires AllSnapshotNames(snaps)
  {
    if t in conf then Doomed(Bucket(snaps, CleanPrefixes, t), conf[t]) else []
  }

  /** The first `j` types differ from each other and all have a keep-count. */
  ghost predicate WalkOk(types: seq<string>, conf: Quotas, j: nat)
    requires j <= |types|
  {
    j == 0 || (types[j - 1] in conf && types[j - 1] !in types[..j - 1] && WalkOk(types, conf, j - 1))
  }

  lemma {:induction false} WalkOkFrom(types: seq<string>, conf: Quotas, j: nat)
    requires Distinct(types) && AllQuotasSet(types, conf) && j <= |types|
    ensures WalkOk(types, conf, j)
    decreases j
  {
    if j > 0 {
      DistinctPrefix(types, j - 1);
      WalkOkFrom(types, conf, j - 1);
    }
  }

  /** What the plan destroys of one type is exactly what the slice of its bucket names. */
  lemma {:induction false} PlanOfType(snaps: seq<string>, types: seq<string>, conf: Quotas, j: nat, t: string)
    requires AllSnapshotNames(snaps) && j <= |types| && WalkOk(types, conf, j)
    ensures OfType(PlanThrough(snaps, types, conf, j).plan, t) == if t in types[..j] then Scheduled(snaps, conf, t) else []
    decreases j
  {
    if j > 0 {
      PlanOfType(snaps, types, conf, j - 1, t);
      PlanOfTypeStep(snaps, types, conf, j, t);
    } else {
      assert types[..j] == [];
    }
  }

  lemma InPrefixStep(types: seq<string>, j: nat, x: string)
    requires 0 < j <= |types|
    ensures x in types[..j] <==> x in types[..j - 1] || x == types[j - 1]
  {
    assert types[..j] == types[..j - 1] + [types[j - 1]];
  }

  /** One step of `PlanOfType`: the plan through `j` is the bucket of `types[j - 1]` before the plan through `j - 1`. */
  lemma PlanOfTypeStep(snaps: seq<string>, types: seq<string>, conf: Quotas, j: nat, t: string)
    requires AllSnapshotNames(snaps) && 0 < j <= |types|
    requires types[j - 1] in conf && types[j - 1] !in types[..j - 1]
    requires OfType(PlanThrough(snaps, types, conf, j - 1).plan, t) == if t in types[..j - 1] then Scheduled(snaps, conf, t) else []
    ensures OfType(PlanThrough(snaps, types, conf, j).plan, t) == if t in types[..j] then Scheduled(snaps, conf, t) else []
  {
    var u := types[j - 1];
    var d := Doomed(Bucket(snaps, CleanPrefixes, u), conf[u]);
    var rest := PlanThrough(snaps, types, conf, j - 1).plan;
    assert PlanThrough(snaps, types, conf, j).plan == d + rest;
    InPrefixStep(types, j, t);
    if t == u {
      assert OfType(d + rest, t) == d by {
        OfTypeConcat(d, rest, t);
        DoomedOfType(snaps, u, conf[u]);
        SameTypeStep(d, rest, t);
      }
    } else {
      assert OfType(d + rest, t) == OfType(rest, t) by {
        OfTypeConcat(d, rest, t);
        DoomedOfType(snaps, u, conf[u]);
        OtherTypeStep(d, rest, t);
      }
    }
  }

  lemma SameTypeStep(d: seq<string>, rest: seq<string>, t: string)
    requires forall x :: x in d ==> TypeOf(x) == t
    requires OfType(rest, t) == []
    requires OfType(d + rest, t) == OfType(d, t) + OfType(rest, t)
    ensures OfType(d + rest, t) == d
  {
    OfTypeAll(d, t);
  }

  lemma OtherTypeStep(d: seq<string>, rest: seq<string>, t: string)
    requires forall x :: x in d ==> TypeOf(x) != t
    requires OfType(d + rest, t) == OfType(d, t) + OfType(rest, t)
    ensures OfType(d + rest, t) == OfType(rest, t)
  {
    OfTypeNone(d, t);
  }

  /** A bucket's doomed snapshots all carry the bucket's type. */
  lemma DoomedOfType(snaps: seq<string>, u: string, k: Option<int>)
    requires AllSnapshotNames(snaps)
    ensures forall x :: x in Doomed(Bucket(snaps, CleanPrefixes, u), k) ==> TypeOf(x) == u
  {
    var bucket := Bucket(snaps, CleanPrefixes, u);
    forall x | x in Doomed(bucket, k) ensures TypeOf(x) == u {
      DoomedInBucket(bucket, k, x);
      BucketMembers(snaps, CleanPrefixes, u, x);
    }
  }

  /**
   * Per type, the destroyed snapshots are the oldest of its bucket, newest of
   * them first; for a count `c >= 0` there are exactly `max(0, len - c)` of them.
   */
  lemma DestroyedPerType(snaps: seq<string>, types: seq<string>, conf: Quotas, t: string)
    requires AllSnapshotNames(snaps) && Distinct(types) && AllQuotasSet(types, conf) && t in types
    ensures var bucket := Bucket(snaps, CleanPrefixes, t);
            var doomed := OfType(Plan(snaps, types, conf).plan, t);
            && doomed == Reverse(bucket[..|bucket| - SliceStart(|bucket|, conf[t])])
            && (conf[t].Some? && conf[t].value >= 0 ==>
                  |doomed| == if |bucket| > conf[t].value then |bucket| - conf[t].value else 0)
            && (conf[t].None? ==> |doomed| == |bucket|)
  {
    assert types[..|types|] == types;
    WalkOkFrom(types, conf, |types|);
    PlanOfType(snaps, types, conf, |types|, t);
    var bucket := Bucket(snaps, CleanPrefixes, t);
    DoomedAreOldest(bucket, conf[t]);
  }

  /**
   * The plan visits types in reverse `SNAPSHOT_TYPES` order: a snapshot of the
   * type at position `ka` never comes before one of a type at a later position `kb`.
   */
  ghost predicate TypeOrdered(plan: seq<string>, types: seq<string>)
  {
    forall a, b, ka, kb ::
      (0 <= a < b < |plan| && 0 <= ka < |types| && 0 <= kb < |types| &&
       TypeOf(plan[a]) == types[ka] && TypeOf(plan[b]) == types[kb]) ==> ka >= kb
  }

  lemma {:induction false} PlanOrder(snaps: seq<string>, types: seq<string>, conf: Quotas, j: nat)
    requires AllSnapshotNames(snaps) && Distinct(types) && j <= |types|
    ensures TypeOrdered(PlanThrough(snaps, types, conf, j).plan, types)
    decreases j
  {
    if j > 0 && types[j - 1] in conf {
      PlanOrder(snaps, types, conf, j - 1);
      PlanOrderStep(snaps, types, conf, j);
    }
  }

  /** One step of `PlanOrder`: the bucket of `types[j - 1]` goes before all of the earlier types. */
  lemma PlanOrderStep(snaps: seq<string>, types: seq<string>, conf: Quotas, j: nat)
    requires AllSnapshotNames(snaps) && Distinct(types) && 0 < j <= |types| && types[j - 1] in conf
    requires TypeOrdered(PlanThrough(snaps, types, conf, j - 1).plan, types)
    ensures TypeOrdered(PlanThrough(snaps, types, conf, j).plan, types)
  {
    var u := types[j - 1];
    var d := Doomed(Bucket(snaps, CleanPrefixes, u), conf[u]);
    var rest := PlanThrough(snaps, types, conf, j - 1).plan;
    DoomedOfType(snaps, u, conf[u]);
    forall y | y in rest ensures TypeOf(y) in types[..j - 1] {
      PlanMembers(snaps, types, conf, j - 1, y);
    }
    TypeOrderedConcat(types, j, d, rest);
    assert PlanThrough(snaps, types, conf, j).plan == d + rest;
  }

  /**
   * Snapshots of the type at position `j - 1`, put before an ordered plan of
   * types at earlier positions, give an ordered plan.
   */
  lemma TypeOrderedConcat(types: seq<string>, j: nat, d: seq<string>, rest: seq<string>)
    requires Distinct(types) && 0 < j <= |types|
    requires forall x :: x in d ==> TypeOf(x) == types[j - 1]
    requires forall y :: y in rest ==> TypeOf(y) in types[..j - 1]
    requires TypeOrdered(rest, types)
    ensures TypeOrdered(d + rest, types)
  {
    var plan := d + rest;
    forall a, b, ka, kb |
      0 <= a < b < |plan| && 0 <= ka < |types| && 0 <= kb < |types| &&
      TypeOf(plan[a]) == types[ka] && TypeOf(plan[b]) == types[kb]
      ensures ka >= kb
    {
      TypeOrderedPair(types, j, d, rest, a, b, ka, kb);
    }
  }

  /** The pair case of `TypeOrderedConcat`, for positions `a < b` of `d + rest`. */
  lemma TypeOrderedPair(types: seq<string>, j: nat, d: seq<string>, rest: seq<string>,
                        a: nat, b: nat, ka: nat, kb: nat)
    requires Distinct(types) && 0 < j <= |types|
    requires forall x :: x in d ==> TypeOf(x) == types[j - 1]
    requires forall y :: y in rest ==> TypeOf(y) in types[..j - 1]
    requires TypeOrdered(rest, types)
    requires a < b < |d + rest| && ka < |types| && kb < |types|
    requires TypeOf((d + rest)[a]) == types[ka] && TypeOf((d + rest)[b]) == types[kb]
    ensures ka >= kb
  {
    var plan := d + rest;
    if a < |d| {
      assert plan[a] in d;
      assert types[ka] == types[j - 1];
      if b < |d| {
        assert plan[b] in d;
        assert types[kb] == types[j - 1];
      } else {
        assert plan[b] == rest[b - |d|];
        PositionBelow(types, j - 1, kb);
      }
    } else {
      assert plan[a] == rest[a - |d|] && plan[b] == rest[b - |d|];
    }
  }

  /** In distinct types, a type found among the first `n` sits at a position below `n`. */
  lemma PositionBelow(types: seq<string>, n: nat, k: nat)
    requires Distinct(types) && n <= |types| && k < |types| && types[k] in types[..n]
    ensures k < n
  {
    var i :| 0 <= i < n && types[..n][i] == types[k];
    assert types[i] == types[k];
  }

  // ---- idempotence --------------------------------------------------------

  /** `s` without the snapshots named in `removed`, in order. */
  function Without(s: seq<string>, removed: seq<string>): (r: seq<string>)
    ensures |r| <= |s|
  {
    if s == [] then []
    else Without(s[..|s| - 1], removed) + (if s[|s| - 1] in removed then [] else [s[|s| - 1]])
  }

  lemma {:induction false} WithoutMembers(s: seq<string>, removed: seq<string>, x: string)
    ensures x in Without(s, removed) <==> x in s && x !in removed
    decreases |s|
  {
    if s != [] {
      WithoutMembers(s[..|s| - 1], removed, x);
      assert s == s[..|s| - 1] + [s[|s| - 1]];
    }
  }

  lemma {:induction false} WithoutConcat(a: seq<string>, b: seq<string>, removed: seq<string>)
    ensures Without(a + b, removed) == Without(a, removed) + Without(b, removed)
    decreases |b|
  {
    if b == [] {
      assert a + b == a;
    } else {
      assert (a + b)[..|a + b| - 1] == a + b[..|b| - 1];
      WithoutConcat(a, b[..|b| - 1], removed);
    }
  }

  /** Only membership in the removed list matters. */
  lemma {:induction false} WithoutCongruent(s: seq<string>, r1: seq<string>, r2: seq<string>)
    requires forall x :: x in s ==> (x in r1 <==> x in r2)
    ensures Without(s, r1) == Without(s, r2)
    decreases |s|
  {
    if s != [] {
      var init, last := s[..|s| - 1], s[|s| - 1];
      assert s == init + [last];
      assert last in r1 <==> last in r2;
      WithoutCongruent(init, r1, r2);
    }
  }

  lemma WithoutAll(s: seq<string>, removed: seq<string>)
    requires forall x :: x in s ==> x in removed
    ensures Without(s, removed) == []
  {
    if Without(s, removed) != [] {
      var x := Without(s, removed)[0];
      WithoutMembers(s, removed, x);
    }
  }

  lemma {:induction false} WithoutNone(s: seq<string>, removed: seq<string>)
    requires forall x :: x in s ==> x !in removed
    ensures Without(s, removed) == s
    decreases |s|
  {
    if s != [] {
      var init, last := s[..|s| - 1], s[|s| - 1];
      assert s == init + [last];
      assert last !in removed;
      WithoutNone(init, removed);
      assert Without(s, removed) == Without(init, removed) + [last];
    }
  }

  lemma WithoutSingleton(x: string, removed: seq<string>)
    ensures Without([x], removed) == if x in removed then [] else [x]
  {
    assert [x][..0] == [];
  }

  /** Filtering the listing first and then taking a bucket is taking the bucket and then filtering it. */
  lemma {:induction false} BucketWithout(snaps: seq<string>, removed: seq<string>, t: string)
    requires AllSnapshotNames(snaps)
    ensures AllSnapshotNames(Without(snaps, removed))
    ensures Bucket(Without(snaps, removed), CleanPrefixes, t) == Without(Bucket(snaps, CleanPrefixes, t), removed)
    decreases |snaps|
  {
    var w := Without(snaps, removed);
    forall i | 0 <= i < |w| ensures IsSnapshotName(w[i]) {
      WithoutMembers(snaps, removed, w[i]);
    }
    if snaps != [] {
      var init := snaps[..|snaps| - 1];
      var last := snaps[|snaps| - 1];
      BucketWithout(init, removed, t);
      var wi := Without(init, removed);
      var bi := Bucket(init, CleanPrefixes, t);
      var sel: seq<string> := if Selected(last, CleanPrefixes, t) then [last] else [];
      assert Bucket(snaps, CleanPrefixes, t) == bi + sel;
      WithoutConcat(bi, sel, removed);
      WithoutSingleton(last, removed);
      assert Without(sel, removed) == if last in removed then [] else sel;
      if last in removed {
        assert w == wi;
      } else {
        assert w == wi + [last];
        assert w[..|w| - 1] == wi && w[|w| - 1] == last;
      }
    }
  }

  /**
   * With unique snapshot names, what survives of a bucket are its newest
   * `KeptCount` snapshots, in listing order.
   */
  lemma KeptAreNewest(snaps: seq<string>, types: seq<string>, conf: Quotas, t: string)
    requires AllSnapshotNames(snaps) && NoDuplicates(snaps) && Distinct(types) && AllQuotasSet(types, conf)
    requires t in types && t in conf && SaneQuota(conf[t])
    ensures var b := Bucket(snaps, CleanPrefixes, t);
            Without(b, Plan(snaps, types, conf).plan) == b[|b| - KeptCount(|b|, conf[t])..]
  {
    var b := Bucket(snaps, CleanPrefixes, t);
    PlanMeetsBucket(snaps, types, conf, t);
    BucketNoDuplicates(snaps, CleanPrefixes, t);
    DoomedAreOldest(b, conf[t]);
    KeptOfBucket(b, Plan(snaps, types, conf).plan, conf[t]);
  }

  /** What survives of a duplicate-free bucket under a plan that meets it in its doomed snapshots. */
  lemma KeptOfBucket(b: seq<string>, plan: seq<string>, k: Option<int>)
    requires NoDuplicates(b)
    requires forall x :: x in b ==> (x in plan <==> x in Doomed(b, k))
    ensures Without(b, plan) == b[|b| - SliceStart(|b|, k)..]
  {
    WithoutCongruent(b, plan, Doomed(b, k));
    WithoutDoomed(b, k);
  }

  /** Within one bucket, the plan removes exactly the bucket's doomed snapshots. */
  lemma PlanMeetsBucket(snaps: seq<string>, types: seq<string>, conf: Quotas, t: string)
    requires AllSnapshotNames(snaps) && Distinct(types) && AllQuotasSet(types, conf) && t in types
    ensures var b := Bucket(snaps, CleanPrefixes, t);
            forall x :: x in b ==> (x in Plan(snaps, types, conf).plan <==> x in Doomed(b, conf[t]))
  {
    var b := Bucket(snaps, CleanPrefixes, t);
    var plan := Plan(snaps, types, conf).plan;
    assert types[..|types|] == types;
    WalkOkFrom(types, conf, |types|);
    PlanOfType(snaps, types, conf, |types|, t);
    forall x | x in b ensures x in plan <==> x in Doomed(b, conf[t]) {
      BucketMembers(snaps, CleanPrefixes, t, x);
      OfTypeMembers(plan, t, x);
    }
  }

  /** Removing a duplicate-free bucket's doomed snapshots leaves its newest `SliceStart` ones. */
  lemma WithoutDoomed(b: seq<string>, k: Option<int>)
    requires NoDuplicates(b)
    ensures Without(b, Doomed(b, k)) == b[|b| - SliceStart(|b|, k)..]
  {
    var m := |b| - SliceStart(|b|, k);
    var d := Reverse(b[..m]);
    assert Doomed(b, k) == d by {
      DoomedAreOldest(b, k);
    }
    ReversedPrefix(b, m);
    WithoutSplit(b, m, d);
  }

  /** Removing a list that holds all of `b[..m]` and none of `b[m..]` from `b` leaves `b[m..]`. */
  lemma WithoutSplit(b: seq<string>, m: nat, d: seq<string>)
    requires m <= |b|
    requires forall x :: x in b[..m] ==> x in d
    requires forall x :: x in b[m..] ==> x !in d
    ensures Without(b, d) == b[m..]
  {
    var older, newer := b[..m], b[m..];
    assert b == older + newer;
    WithoutConcat(older, newer, d);
    WithoutAll(older, d);
    WithoutNone(newer, d);
  }

  /** The reversed first `m` elements hold exactly those, and none of the later ones. */
  lemma ReversedPrefix(b: seq<string>, m: nat)
    requires NoDuplicates(b) && m <= |b|
    ensures forall x :: x in b[..m] ==> x in Reverse(b[..m])
    ensures forall x :: x in b[m..] ==> x !in Reverse(b[..m])
  {
    ReverseMultiset(b[..m]);
    forall x | x in b[..m] ensures x in Reverse(b[..m]) {
      assert x in multiset(b[..m]);
    }
    forall x | x in b[m..] ensures x !in Reverse(b[..m]) {
      var j :| 0 <= j < |b[m..]| && b[m..][j] == x;
      forall i | 0 <= i < m ensures b[..m][i] != x {
        assert b[i] != b[m + j];
      }
      assert x !in multiset(b[..m]);
    }
  }

  /** Every type has a keep-count that is unset or non-negative. */
  ghost predicate QuotasSane(types: seq<string>, conf: Quotas)
  {
    forall k :: 0 <= k < |types| ==> types[k] in conf && SaneQuota(conf[types[k]])
  }

  /** A bucket cut down to its kept snapshots has nothing left past its keep-count. */
  lemma NothingMoreDoomed(b: seq<string>, k: Option<int>)
    requires SaneQuota(k)
    ensures Doomed(b[|b| - KeptCount(|b|, k)..], k) == []
  {
  }

  /** Once the plan has run, planning again on what remains finds nothing to destroy. */
  lemma {:induction false} PlanIdempotentThrough(snaps: seq<string>, types: seq<string>, conf: Quotas, j: nat)
    requires AllSnapshotNames(snaps) && NoDuplicates(snaps) && Distinct(types) && QuotasSane(types, conf)
    requires j <= |types|
    ensures AllSnapshotNames(Without(snaps, Plan(snaps, types, conf).plan))
    ensures PlanThrough(Without(snaps, Plan(snaps, types, conf).plan), types, conf, j).plan == []
    decreases j
  {
    var plan := Plan(snaps, types, conf).plan;
    var rem := Without(snaps, plan);
    assert AllSnapshotNames(rem) by {
      BucketWithout(snaps, plan, "");
    }
    if j > 0 {
      var t := types[j - 1];
      assert t in types && t in conf && SaneQuota(conf[t]);
      assert PlanThrough(rem, types, conf, j - 1).plan == [] by {
        PlanIdempotentThrough(snaps, types, conf, j - 1);
      }
      var b := Bucket(snaps, CleanPrefixes, t);
      assert Bucket(rem, CleanPrefixes, t) == b[|b| - KeptCount(|b|, conf[t])..] by {
        BucketWithout(snaps, plan, t);
        KeptAreNewest(snaps, types, conf, t);
      }
      NothingMoreDoomed(b, conf[t]);
    }
  }

  /**
   * Idempotence: after a run in which every destroy succeeds, running
   * `clean_filesystem` again on the remaining snapshots with the same
   * configuration destroys nothing.  Names are unique (as ZFS keeps them)
   * and every keep-count is unset or non-negative.
   */
  lemma CleanIdempotent(snaps: seq<string>, types: seq<string>, conf: Quotas, destroy: string -> DestroyOutcome)
    requires AllSnapshotNames(snaps) && NoDuplicates(snaps) && Distinct(types) && QuotasSane(types, conf)
    requires forall x :: destroy(x) == Removed
    ensures var first := CleanSpec(Some(snaps), types, conf, destroy);
            && first.status == Completed
            && AllSnapshotNames(Without(snaps, first.destroyed))
            && CleanSpec(Some(Without(snaps, first.destroyed)), types, conf, destroy).attempted == []
  {
    var plan := Plan(snaps, types, conf).plan;
    var first := CleanSpec(Some(snaps), types, conf, destroy);
    ExecuteContinuesPastFailures(plan, destroy);
    ExecuteShape(plan, destroy);
    MissingOnlyWithoutKey(snaps, types, conf, |types|);
    assert types[..|types|] == types;
    WithoutCongruent(snaps, first.destroyed, plan);
    PlanIdempotentThrough(snaps, types, conf, |types|);
  }

  /** The `KeyError` status names a type that is not a key. */
  lemma {:induction false} MissingOnlyWithoutKey(snaps: seq<string>, types: seq<string>, conf: Quotas, j: nat)
    requires AllSnapshotNames(snaps) && j <= |types|
    ensures var m := PlanThrough(snaps, types, conf, j).missing;
            m.Some? ==> m.value in types[..j] && m.value !in conf
    decreases j
  {
    if j > 0 {
      MissingOnlyWithoutKey(snaps, types, conf, j - 1);
      var m := PlanThrough(snaps, types, conf, j).missing;
      if m.Some? {
        InPrefixStep(types, j, m.value);
      }
    }
  }

  // ---- properties of a whole clean_filesystem call ------------------------

  /**
   * Only listed snapshots whose part after `@` starts with `pyznap` or
   * `autosnap` and whose text after the last `_` is a known type are ever
   * destroyed; no snapshot is destroyed twice when names are unique.
   */
  lemma CleanDestroysOnlyManaged(listing: Option<seq<string>>, types: seq<string>, conf: Quotas,
                                 destroy: string -> DestroyOutcome)
    requires listing.Some? ==> AllSnapshotNames(listing.value)
    requires Distinct(types)
    ensures var r := CleanSpec(listing, types, conf, destroy);
            && (forall x :: x in r.attempted ==>
                  && listing.Some? && x in listing.value && IsSnapshotName(x)
                  && (StartsWith(SnapPart(x), "pyznap") || StartsWith(SnapPart(x), "autosnap"))
                  && TypeOf(x) in types)
            && (listing.Some? && NoDuplicates(listing.value) ==> NoDuplicates(r.attempted))
  {
    if listing.Some? {
      var snaps := listing.value;
      var plan := Plan(snaps, types, conf).plan;
      var r := CleanSpec(listing, types, conf, destroy);
      ExecuteShape(plan, destroy);
      assert r.attempted == plan[..|r.attempted|];
      forall x | x in r.attempted
        ensures x in snaps && IsSnapshotName(x)
        ensures StartsWith(SnapPart(x), "pyznap") || StartsWith(SnapPart(x), "autosnap")
        ensures TypeOf(x) in types
      {
        assert x in plan;
        assert types[..|types|] == types;
        PlanMembers(snaps, types, conf, |types|, x);
        var i :| 0 <= i < |CleanPrefixes| && StartsWith(SnapPart(x), CleanPrefixes[i]);
      }
      if NoDuplicates(snaps) {
        PlanNoDuplicates(snaps, types, conf, |types|);
      }
    }
  }

  /** A listing that raised leaves the dataset untouched and returns 1. */
  lemma CleanOpenFailure(types: seq<string>, conf: Quotas, destroy: string -> DestroyOutcome)
    ensures CleanSpec(None, types, conf, destroy).status == OpenFailed
    ensures CleanSpec(None, types, conf, destroy).attempted == []
  {
  }
}
