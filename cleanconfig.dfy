/**
 * The driver loop of pyznap/clean.py, `clean_config`: for each
 * configuration entry with a truthy `clean`, clean the entry's own dataset
 * and then every child dataset that is not excluded through the entry's
 * snap-exclude property.
 *
 * Resolving an entry (`parse_name`, the SSH connection, `zfs.find_exclude`)
 * is an input, `Lookup`; `child.ispropval(prop, check='false')` is the
 * parameter `propIsFalse`; the snapshot listing of a dataset is the
 * parameter `listings`.
 */
module CleanConfig {
  import opened Wrappers
  import opened Sequences
  import opened Text
  import opened Snapshots
  import opened Clean

  /**
   * What resolving one configuration entry gives: `parse_name` or the SSH
   * connection failing, `zfs.find_exclude` raising, or the datasets to clean,
   * the entry's own dataset first.
   */
  datatype Lookup =
    | ParseFailed      // parse_name raised ValueError
    | SshFailed        // SSH(...) raised FileNotFoundError or SSHException
    | DatasetMissing   // find_exclude raised DatasetNotFoundError
    | ExcludeInvalid   // find_exclude raised ValueError
    | ListingFailed    // find_exclude raised CalledProcessError
    | Found(top: string, children: seq<string>)

  /** The parts of a configuration entry that `clean_config` reads. */
  datatype CleanEntry = CleanEntry(
    name: string,
    clean: bool,
    snapExcludeProperty: Option<string>,
    conf: Quotas,
    lookup: Lookup)

  /** A dataset to clean together with the keep-counts of the entry that names it. */
  datatype Target = Target(dataset: string, conf: Quotas)

  /** A child is left alone when the entry has an exclude property and the child has it set to `false`. */
  predicate ChildExcluded(child: string, prop: Option<string>, propIsFalse: (string, string) -> bool)
  {
    Truthy(prop) && propIsFalse(child, prop.value)
  }

  /** The children of an entry that are cleaned, in order, with the entry's keep-counts. */
  function ChildTargets(children: seq<string>, prop: Option<string>, conf: Quotas,
                        propIsFalse: (string, string) -> bool): seq<Target>
  {
    if children == [] then []
    else
      var last := children[|children| - 1];
      ChildTargets(children[..|children| - 1], prop, conf, propIsFalse) +
        (if ChildExcluded(last, prop, propIsFalse) then [] else [Target(last, conf)])
  }

  /** The datasets `clean_config` cleans for one entry, in order. */
  function EntryTargets(e: CleanEntry, propIsFalse: (string, string) -> bool): seq<Target>
  {
    if !e.clean || !e.lookup.Found? then []
    else [Target(e.lookup.top, e.conf)] + ChildTargets(e.lookup.children, e.snapExcludeProperty, e.conf, propIsFalse)
  }

  /** The targets of each entry, entry by entry. */
  function EntryTargetLists(config: seq<CleanEntry>, propIsFalse: (string, string) -> bool): (r: seq<seq<Target>>)
    ensures |r| == |config|
    ensures forall i :: 0 <= i < |config| ==> r[i] == EntryTargets(config[i], propIsFalse)
  {
    seq(|config|, i requires 0 <= i < |config| => EntryTargets(config[i], propIsFalse))
  }

  /** The datasets `clean_config` cleans for the whole configuration, in order. */
  function CleanTargets(config: seq<CleanEntry>, propIsFalse: (string, string) -> bool): seq<Target>
  {
    Flatten(EntryTargetLists(config, propIsFalse))
  }

  lemma {:induction false} ChildTargetsMembers(children: seq<string>, prop: Option<string>, conf: Quotas,
                                               propIsFalse: (string, string) -> bool, t: Target)
    ensures t in ChildTargets(children, prop, conf, propIsFalse) <==>
              t.dataset in children && t.conf == conf && !ChildExcluded(t.dataset, prop, propIsFalse)
    decreases |children|
  {
    if children != [] {
      ChildTargetsMembers(children[..|children| - 1], prop, conf, propIsFalse, t);
      assert children == children[..|children| - 1] + [children[|children| - 1]];
    }
  }

  /**
   * An entry without a truthy `clean`, or whose lookup failed, contributes
   * nothing; otherwise its own dataset is cleaned, first, whatever its
   * property says, and a child is cleaned iff it is not excluded through the
   * entry's snap-exclude property.
   */
  lemma EntryTargetsSpec(e: CleanEntry, propIsFalse: (string, string) -> bool, t: Target)
    ensures !e.clean || !e.lookup.Found? ==> EntryTargets(e, propIsFalse) == []
    ensures e.clean && e.lookup.Found? ==> EntryTargets(e, propIsFalse)[0] == Target(e.lookup.top, e.conf)
    ensures t in EntryTargets(e, propIsFalse) <==>
              && e.clean && e.lookup.Found? && t.conf == e.conf
              && (t.dataset == e.lookup.top ||
                  (t.dataset in e.lookup.children && !ChildExcluded(t.dataset, e.snapExcludeProperty, propIsFalse)))
  {
    if e.clean && e.lookup.Found? {
      ChildTargetsMembers(e.lookup.children, e.snapExcludeProperty, e.conf, propIsFalse, t);
    }
  }

  /** A target of the whole run is a target of one of the entries, and every entry's targets are in the run. */
  lemma CleanTargetsMembers(config: seq<CleanEntry>, propIsFalse: (string, string) -> bool, t: Target)
    ensures t in CleanTargets(config, propIsFalse) <==>
              exists i :: 0 <= i < |config| && t in EntryTargets(config[i], propIsFalse)
  {
    var lists := EntryTargetLists(config, propIsFalse);
    FlattenMembers(lists, t);
    assert forall i :: 0 <= i < |config| ==> lists[i] == EntryTargets(config[i], propIsFalse);
  }

  // ---- running the targets ------------------------------------------------

  /** What a `clean_config` run has produced: one report per dataset cleaned, and whether an exception escaped. */
  datatype ConfigRun = ConfigRun(reports: seq<CleanReport>, aborted: bool)

  /** The `clean_filesystem` outcomes that raise out of `clean_config`: its `try` catches neither. */
  predicate Raises(r: CleanReport)
  {
    r.status == Interrupted || r.status.QuotaKeyError?
  }

  /** The reports, in order, up to and including the first one that raises. */
  function UntilRaise(reports: seq<CleanReport>): ConfigRun
  {
    if reports == [] then ConfigRun([], false)
    else
      var r := UntilRaise(reports[..|reports| - 1]);
      if r.aborted then r
      else
        var last := reports[|reports| - 1];
        ConfigRun(r.reports + [last], Raises(last))
  }

  /**
   * A run keeps a prefix of the reports; it stops right after the first that
   * raises, and keeps them all when none does.
   */
  lemma {:induction false} UntilRaiseShape(reports: seq<CleanReport>)
    ensures var r := UntilRaise(reports);
            && r.reports <= reports
            && (forall k :: 0 <= k < |r.reports| - 1 ==> !Raises(r.reports[k]))
            && (r.aborted <==> |r.reports| > 0 && Raises(r.reports[|r.reports| - 1]))
            && (!r.aborted ==> r.reports == reports)
    decreases |reports|
  {
    if reports != [] {
      var init := reports[..|reports| - 1];
      UntilRaiseShape(init);
      assert init <= reports;
    }
  }

  /** Once a run has aborted, further reports change nothing. */
  lemma {:induction false} UntilRaiseStops(p: seq<CleanReport>, q: seq<CleanReport>)
    requires UntilRaise(p).aborted
    ensures UntilRaise(p + q) == UntilRaise(p)
    decreases |q|
  {
    if q == [] {
      assert p + q == p;
    } else {
      var a := p + q;
      assert a[..|a| - 1] == p + q[..|q| - 1];
      UntilRaiseStops(p, q[..|q| - 1]);
    }
  }

  lemma UntilRaiseSnoc(p: seq<CleanReport>, x: CleanReport)
    requires !UntilRaise(p).aborted
    ensures UntilRaise(p + [x]) == ConfigRun(UntilRaise(p).reports + [x], Raises(x))
  {
    assert (p + [x])[..|p + [x]| - 1] == p;
  }

  /** Every listing ZFS returns consists of snapshot names. */
  ghost predicate ListingsWellFormed(listings: string -> Option<seq<string>>)
  {
    forall d :: listings(d).Some? ==> AllSnapshotNames(listings(d).value)
  }

  /** The report `clean_filesystem` gives for each target, in order. */
  ghost function TargetReports(ts: seq<Target>, types: seq<string>, listings: string -> Option<seq<string>>,
                               destroy: string -> DestroyOutcome): (r: seq<CleanReport>)
    requires ListingsWellFormed(listings)
    ensures |r| == |ts|
  {
    if ts == [] then []
    else
      var t := ts[|ts| - 1];
      TargetReports(ts[..|ts| - 1], types, listings, destroy) + [CleanSpec(listings(t.dataset), types, t.conf, destroy)]
  }

  lemma {:induction false} TargetReportsAt(ts: seq<Target>, types: seq<string>, listings: string -> Option<seq<string>>,
                                           destroy: string -> DestroyOutcome, k: nat)
    requires ListingsWellFormed(listings) && k < |ts|
    ensures TargetReports(ts, types, listings, destroy)[k] == CleanSpec(listings(ts[k].dataset), types, ts[k].conf, destroy)
    decreases |ts|
  {
    if k < |ts| - 1 {
      TargetReportsAt(ts[..|ts| - 1], types, listings, destroy, k);
    }
  }

  lemma {:induction false} TargetReportsConcat(a: seq<Target>, b: seq<Target>, types: seq<string>,
                                               listings: string -> Option<seq<string>>, destroy: string -> DestroyOutcome)
    requires ListingsWellFormed(listings)
    ensures TargetReports(a + b, types, listings, destroy) ==
            TargetReports(a, types, listings, destroy) + TargetReports(b, types, listings, destroy)
    decreases |b|
  {
    if b == [] {
      assert a + b == a;
    } else {
      var c := a + b;
      assert c[..|c| - 1] == a + b[..|b| - 1] && c[|c| - 1] == b[|b| - 1];
      TargetReportsConcat(a, b[..|b| - 1], types, listings, destroy);
    }
  }

  /** What cleaning the targets in order gives, stopping at the first exception. */
  ghost function RunTargets(ts: seq<Target>, types: seq<string>, listings: string -> Option<seq<string>>,
                            destroy: string -> DestroyOutcome): ConfigRun
    requires ListingsWellFormed(listings)
  {
    UntilRaise(TargetReports(ts, types, listings, destroy))
  }

  /**
   * The run cleans a prefix of the targets, each as `clean_filesystem`
   * specifies; it stops right after the first one that raises, and covers
   * them all when none does.
   */
  lemma RunTargetsShape(ts: seq<Target>, types: seq<string>, listings: string -> Option<seq<string>>,
                        destroy: string -> DestroyOutcome)
    requires ListingsWellFormed(listings)
    ensures var r := RunTargets(ts, types, listings, destroy);
            && |r.reports| <= |ts|
            && (forall k :: 0 <= k < |r.reports| ==>
                  r.reports[k] == CleanSpec(listings(ts[k].dataset), types, ts[k].conf, destroy))
            && (forall k :: 0 <= k < |r.reports| - 1 ==> !Raises(r.reports[k]))
            && (r.aborted <==> |r.reports| > 0 && Raises(r.reports[|r.reports| - 1]))
            && (!r.aborted ==> |r.reports| == |ts|)
  {
    var reports := TargetReports(ts, types, listings, destroy);
    UntilRaiseShape(reports);
    var r := UntilRaise(reports);
    forall k | 0 <= k < |r.reports|
      ensures r.reports[k] == CleanSpec(listings(ts[k].dataset), types, ts[k].conf, destroy)
    {
      assert r.reports[k] == reports[k];
      TargetReportsAt(ts, types, listings, destroy, k);
    }
  }

  /** Cleaning one more target, after a run that has not aborted, extends the run by that target's report. */
  lemma RunTargetsSnoc(ts: seq<Target>, t: Target, types: seq<string>, listings: string -> Option<seq<string>>,
                       destroy: string -> DestroyOutcome)
    requires ListingsWellFormed(listings)
    requires !RunTargets(ts, types, listings, destroy).aborted
    ensures var report := CleanSpec(listings(t.dataset), types, t.conf, destroy);
            RunTargets(ts + [t], types, listings, destroy) ==
              ConfigRun(RunTargets(ts, types, listings, destroy).reports + [report], Raises(report))
  {
    assert (ts + [t])[..|ts + [t]| - 1] == ts;
    UntilRaiseSnoc(TargetReports(ts, types, listings, destroy), CleanSpec(listings(t.dataset), types, t.conf, destroy));
  }

  /** Once the run has aborted, the remaining targets are not cleaned. */
  lemma RunTargetsStops(p: seq<Target>, q: seq<Target>, types: seq<string>,
                        listings: string -> Option<seq<string>>, destroy: string -> DestroyOutcome)
    requires ListingsWellFormed(listings)
    requires RunTargets(p, types, listings, destroy).aborted
    ensures RunTargets(p + q, types, listings, destroy) == RunTargets(p, types, listings, destroy)
  {
    TargetReportsConcat(p, q, types, listings, destroy);
    UntilRaiseStops(TargetReports(p, types, listings, destroy), TargetReports(q, types, listings, destroy));
  }

  // ---- the loops ----------------------------------------------------------

  /** `clean_filesystem(dataset, conf)` on one target, continuing a run that has not aborted. */
  method CleanTarget(t: Target, types: seq<string>, listings: string -> Option<seq<string>>,
                     destroy: string -> DestroyOutcome, ghost done: seq<Target>, run0: ConfigRun)
    returns (run: ConfigRun)
    requires Distinct(types) && ListingsWellFormed(listings)
    requires run0 == RunTargets(done, types, listings, destroy) && !run0.aborted
    ensures run == RunTargets(done + [t], types, listings, destroy)
  {
    var report := CleanFilesystem(listings(t.dataset), types, t.conf, destroy);
    RunTargetsSnoc(done, t, types, listings, destroy);
    run := ConfigRun(run0.reports + [report], Raises(report));
  }

  lemma ChildTargetsStep(children: seq<string>, k: nat, prop: Option<string>, conf: Quotas,
                         propIsFalse: (string, string) -> bool)
    requires k < |children|
    ensures ChildTargets(children[..k + 1], prop, conf, propIsFalse) ==
              ChildTargets(children[..k], prop, conf, propIsFalse) +
              (if ChildExcluded(children[k], prop, propIsFalse) then [] else [Target(children[k], conf)])
  {
    assert children[..k + 1][..k] == children[..k];
  }

  /** The targets after `start` grow by the child at `k` unless it is excluded. */
  lemma ChildRunStep(children: seq<string>, k: nat, prop: Option<string>, conf: Quotas,
                     propIsFalse: (string, string) -> bool, start: seq<Target>)
    requires k < |children|
    ensures var before := start + ChildTargets(children[..k], prop, conf, propIsFalse);
            var after := start + ChildTargets(children[..k + 1], prop, conf, propIsFalse);
            && (!ChildExcluded(children[k], prop, propIsFalse) ==> after == before + [Target(children[k], conf)])
            && (ChildExcluded(children[k], prop, propIsFalse) ==> after == before)
  {
    ChildTargetsStep(children, k, prop, conf, propIsFalse);
    var ct := ChildTargets(children[..k], prop, conf, propIsFalse);
    assert ct + [] == ct;
  }

  /** The targets among the first children are a prefix of the targets among all of them. */
  lemma {:induction false} ChildTargetsPrefix(children: seq<string>, k: nat, prop: Option<string>, conf: Quotas,
                                              propIsFalse: (string, string) -> bool)
    requires k <= |children|
    ensures ChildTargets(children[..k], prop, conf, propIsFalse) <= ChildTargets(children, prop, conf, propIsFalse)
    decreases |children| - k
  {
    if k == |children| {
      assert children[..k] == children;
    } else {
      ChildTargetsStep(children, k, prop, conf, propIsFalse);
      ChildTargetsPrefix(children, k + 1, prop, conf, propIsFalse);
    }
  }

  /** Once the run over a prefix of the targets has aborted, the rest of the targets are not cleaned. */
  lemma RunTargetsPrefixStops(p: seq<Target>, ts: seq<Target>, types: seq<string>,
                              listings: string -> Option<seq<string>>, destroy: string -> DestroyOutcome)
    requires ListingsWellFormed(listings) && p <= ts
    requires RunTargets(p, types, listings, destroy).aborted
    ensures RunTargets(ts, types, listings, destroy) == RunTargets(p, types, listings, destroy)
  {
    assert p + ts[|p|..] == ts;
    RunTargetsStops(p, ts[|p|..], types, listings, destroy);
  }

  /** The children of an entry in order, each unless excluded, after the targets `start`. */
  method CleanChildren(children: seq<string>, prop: Option<string>, conf: Quotas, types: seq<string>,
                       listings: string -> Option<seq<string>>, destroy: string -> DestroyOutcome,
                       propIsFalse: (string, string) -> bool, ghost start: seq<Target>, run0: ConfigRun)
    returns (run: ConfigRun)
    requires Distinct(types) && ListingsWellFormed(listings)
    requires run0 == RunTargets(start, types, listings, destroy)
    ensures run == RunTargets(start + ChildTargets(children, prop, conf, propIsFalse), types, listings, destroy)
  {
    run := run0;
    ghost var done := start;
    assert start + ChildTargets(children[..0], prop, conf, propIsFalse) == start;
    var k := 0;
    while k < |children|
      invariant 0 <= k <= |children|
      invariant done == start + ChildTargets(children[..k], prop, conf, propIsFalse)
      invariant run == RunTargets(done, types, listings, destroy)
    {
      if run.aborted {
        ChildTargetsPrefix(children, k, prop, conf, propIsFalse);
        RunTargetsPrefixStops(done, start + ChildTargets(children, prop, conf, propIsFalse), types, listings, destroy);
        return;
      }
      var child := children[k];
      ChildRunStep(children, k, prop, conf, propIsFalse, start);
      if !ChildExcluded(child, prop, propIsFalse) {
        run := CleanTarget(Target(child, conf), types, listings, destroy, done, run);
        done := done + [Target(child, conf)];
      }
      k := k + 1;
    }
    assert children[..k] == children;
  }

  /**
   * The body of `clean_config`'s loop for one entry: skip it unless `clean`
   * is truthy and the lookup succeeded, clean its own dataset, then each
   * child that is not excluded.
   */
  method CleanEntryRun(e: CleanEntry, types: seq<string>, listings: string -> Option<seq<string>>,
                       destroy: string -> DestroyOutcome, propIsFalse: (string, string) -> bool,
                       ghost done: seq<Target>, run0: ConfigRun)
    returns (run: ConfigRun)
    requires Distinct(types) && ListingsWellFormed(listings)
    requires run0 == RunTargets(done, types, listings, destroy) && !run0.aborted
    ensures run == RunTargets(done + EntryTargets(e, propIsFalse), types, listings, destroy)
  {
    if !e.clean || !e.lookup.Found? {
      assert done + EntryTargets(e, propIsFalse) == done;
      return run0;
    }
    var top, children, prop := e.lookup.top, e.lookup.children, e.snapExcludeProperty;
    run := CleanTarget(Target(top, e.conf), types, listings, destroy, done, run0);
    run := CleanChildren(children, prop, e.conf, types, listings, destroy, propIsFalse,
                         done + [Target(top, e.conf)], run);
    assert done + [Target(top, e.conf)] + ChildTargets(children, prop, e.conf, propIsFalse) ==
           done + EntryTargets(e, propIsFalse);
  }

  /**
   * `clean_config(config)`: every entry in order, with `SNAPSHOT_TYPES` as
   * `types`; a `KeyboardInterrupt` or `KeyError` out of `clean_filesystem`
   * ends the whole run.
   */
  method CleanConfig(config: seq<CleanEntry>, types: seq<string>, listings: string -> Option<seq<string>>,
                     destroy: string -> DestroyOutcome, propIsFalse: (string, string) -> bool)
    returns (run: ConfigRun)
    requires Distinct(types) && ListingsWellFormed(listings)
    ensures run == RunTargets(CleanTargets(config, propIsFalse), types, listings, destroy)
  {
    ghost var lists := EntryTargetLists(config, propIsFalse);
    run := ConfigRun([], false);
    var i := 0;
    assert lists[..0] == [];
    while i < |config|
      invariant 0 <= i <= |config|
      invariant run == RunTargets(Flatten(lists[..i]), types, listings, destroy)
    {
      ghost var before := Flatten(lists[..i]);
      if run.aborted {
        assert before <= Flatten(lists) by {
          FlattenPrefix(lists, i);
        }
        RunTargetsPrefixStops(before, Flatten(lists), types, listings, destroy);
        return;
      }
      assert before + EntryTargets(config[i], propIsFalse) == Flatten(lists[..i + 1]) by {
        FlattenStep(lists, i);
      }
      run := CleanEntryRun(config[i], types, listings, destroy, propIsFalse, before, run);
      i := i + 1;
    }
    assert lists[..i] == lists;
  }
}
