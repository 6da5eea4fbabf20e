/**
 * pyznap/status.py, `status_filesystem`: which of snapshotting, cleaning and
 * sending apply to one dataset, which destinations survive the exclude
 * patterns, and the status record with one `found/configured` text per
 * snapshot type.
 *
 * `filesystem.ispropval(prop, check='false')` is the parameter `propIsFalse`,
 * `fnmatch` the parameter `matches`, and `filesystem.snapshots()` the listing
 * (`None` when it raises `DatasetNotFoundError`/`DatasetBusyError`).
 */
module Status {
  import opened Wrappers
  import opened Text
  import opened Snapshots
  import LogLevels

  /** status counts only snapshots whose name part starts with `pyznap`. */
  const StatusPrefixes: seq<string> := ["pyznap"]

  /**
   * The parts of a configuration entry status reads: `snap`, `clean`, `dest`
   * (`None` when absent), `exclude` (one pattern list per destination), the two
   * exclude properties and the keep-count of each snapshot type.
   */
  datatype StatusConf = StatusConf(
    snap: bool,
    clean: bool,
    dest: Option<seq<string>>,
    exclude: Option<seq<seq<string>>>,
    snapExcludeProperty: Option<string>,
    sendExcludeProperty: Option<string>,
    quotas: map<string, Option<int>>)

  /** The keyword arguments of `status_filesystem` other than `raw`. */
  datatype StatusArgs = StatusArgs(
    mainFs: bool,
    values: Option<seq<string>>,
    filterSnap: Option<bool>,
    filterClean: Option<bool>,
    filterSend: Option<bool>)

  datatype Flags = Flags(snap: bool, clean: bool, send: bool)

  /** `bool(conf.get('dest', False))`. */
  predicate DestTruthy(dest: Option<seq<string>>)
  {
    dest.Some? && dest.value != []
  }

  /** The dataset is not the entry's own and has the (truthy) property set to `false`. */
  predicate PropertyOff(name: string, prop: Option<string>, mainFs: bool, propIsFalse: (string, string) -> bool)
  {
    !mainFs && Truthy(prop) && propIsFalse(name, prop.value)
  }

  /** The three flags after the exclude properties have been applied. */
  function PropertyFlags(name: string, conf: StatusConf, mainFs: bool, propIsFalse: (string, string) -> bool): Flags
  {
    var snapOff := PropertyOff(name, conf.snapExcludeProperty, mainFs, propIsFalse);
    var sendOff := PropertyOff(name, conf.sendExcludeProperty, mainFs, propIsFalse);
    Flags(conf.snap && !snapOff, conf.clean && !snapOff, DestTruthy(conf.dest) && !sendOff)
  }

  /**
   * The entry's own dataset keeps the configured flags whatever its properties
   * say; any other dataset loses snap and clean when its snap-exclude property
   * is `false`, and send when its send-exclude property is `false`, and keeps
   * each flag otherwise.
   */
  lemma FlagsFromProperties(name: string, conf: StatusConf, mainFs: bool, propIsFalse: (string, string) -> bool)
    ensures var f := PropertyFlags(name, conf, mainFs, propIsFalse);
            && (mainFs ==> f == Flags(conf.snap, conf.clean, DestTruthy(conf.dest)))
            && (!mainFs && Truthy(conf.snapExcludeProperty) && propIsFalse(name, conf.snapExcludeProperty.value) ==>
                  !f.snap && !f.clean)
            && (!(Truthy(conf.snapExcludeProperty) && propIsFalse(name, conf.snapExcludeProperty.value)) ==>
                  f.snap == conf.snap && f.clean == conf.clean)
            && (!mainFs && Truthy(conf.sendExcludeProperty) && propIsFalse(name, conf.sendExcludeProperty.value) ==>
                  !f.send)
            && (!(Truthy(conf.sendExcludeProperty) && propIsFalse(name, conf.sendExcludeProperty.value)) ==>
                  f.send == DestTruthy(conf.dest))
  {
  }

  // ---- destinations ---------------------------------------------------------

  /** An entry of the `dest` list in the record: `False` for an excluded destination, else the destination. */
  datatype DestSlot = Excluded | Dest(target: string)

  /** Python truthiness of a slot. */
  predicate SlotTruthy(s: DestSlot)
  {
    s.Dest? && s.target != ""
  }

  /** `any(fnmatch(name, pattern) for pattern in exclude)`. */
  predicate MatchesAny(name: string, patterns: seq<string>, matches: (string, string) -> bool)
  {
    exists j :: 0 <= j < |patterns| && matches(name, patterns[j])
  }

  function Min(a: nat, b: nat): nat
  {
    if a < b then a else b
  }

  /** The slot for one pair of `zip(conf['exclude'], dest)`. */
  function Slot(name: string, patterns: seq<string>, dst: string, matches: (string, string) -> bool): DestSlot
  {
    if MatchesAny(name, patterns, matches) then Excluded else Dest(dst)
  }

  /** The list `sending` that replaces `dest` when exclude patterns are configured. */
  function Mask(name: string, exclude: seq<seq<string>>, dest: seq<string>, matches: (string, string) -> bool)
    : seq<DestSlot>
  {
    seq(Min(|exclude|, |dest|), i requires 0 <= i < Min(|exclude|, |dest|) => Slot(name, exclude[i], dest[i], matches))
  }

  /** The destinations as configured, none excluded. */
  function Unmasked(dest: seq<string>): (r: seq<DestSlot>)
    ensures |r| == |dest| && forall i :: 0 <= i < |dest| ==> r[i] == Dest(dest[i])
  {
    seq(|dest|, i requires 0 <= i < |dest| => Dest(dest[i]))
  }

  /**
   * The loop that builds `sending`: one slot per pair of `zip(exclude, dest)`,
   * so as many as the shorter list has; a slot is `False` exactly when one of
   * its patterns matches the dataset name, and the destination otherwise.
   */
  method MaskDestinations(name: string, exclude: seq<seq<string>>, dest: seq<string>, matches: (string, string) -> bool)
    returns (sending: seq<DestSlot>)
    ensures |sending| == Min(|exclude|, |dest|)
    ensures forall i :: 0 <= i < |sending| ==>
              (sending[i] == Excluded <==> MatchesAny(name, exclude[i], matches)) &&
              (sending[i] != Excluded ==> sending[i] == Dest(dest[i]))
    ensures sending == Mask(name, exclude, dest, matches)
  {
    sending := [];
    var i := 0;
    while i < |exclude| && i < |dest|
      invariant 0 <= i <= Min(|exclude|, |dest|)
      invariant |sending| == i
      invariant forall k :: 0 <= k < i ==> sending[k] == Slot(name, exclude[k], dest[k], matches)
    {
      var patterns, dst := exclude[i], dest[i];
      if patterns != [] && MatchesAny(name, patterns, matches) {
        sending := sending + [Excluded];
      } else {
        sending := sending + [Dest(dst)];
      }
      i := i + 1;
    }
  }

  /** `any(filter(lambda x: bool(x), dest))`. */
  predicate AnyTruthy(slots: seq<DestSlot>)
  {
    exists i :: 0 <= i < |slots| && SlotTruthy(slots[i])
  }

  /** The destinations the record shows when send is on: masked when exclude patterns are configured. */
  function SendDests(name: string, conf: StatusConf, matches: (string, string) -> bool): seq<DestSlot>
  {
    var dest := if conf.dest.Some? then conf.dest.value else [];
    if conf.exclude.Some? && conf.exclude.value != [] then Mask(name, conf.exclude.value, dest, matches)
    else Unmasked(dest)
  }

  // ---- the decision -------------------------------------------------------

  /** What status reports on a dataset it does not skip: the final flags and the `dest` value. */
  datatype Decision = Decision(flags: Flags, dest: Option<seq<DestSlot>>)

  /** Whether an optional filter lets a flag through: an absent filter always does. */
  predicate Passes(filter: Option<bool>, flag: bool)
  {
    filter.None? || filter.value == flag
  }

  /** The flags and destinations of the dataset, or `None` when `status_filesystem` returns before listing. */
  function Decide(name: string, conf: StatusConf, args: StatusArgs, propIsFalse: (string, string) -> bool,
                  matches: (string, string) -> bool): Option<Decision>
  {
    var f := PropertyFlags(name, conf, args.mainFs, propIsFalse);
    if !(f.snap || f.clean || f.send) then None
    else if !Passes(args.filterSnap, f.snap) || !Passes(args.filterClean, f.clean) then None
    else
      var dest := if f.send then Some(SendDests(name, conf, matches)) else None;
      var send := f.send && AnyTruthy(dest.value);
      if !Passes(args.filterSend, send) then None
      else Some(Decision(Flags(f.snap, f.clean, send), dest))
  }

  /**
   * A dataset is reported only if one of snap, clean and send holds and every
   * filter that is given equals its flag; send is on exactly when the
   * configuration sends (after the properties) and at least one destination
   * survives the exclude patterns; `dest` is shown only when sending was on
   * before the patterns were applied.
   */
  lemma DecideSpec(name: string, conf: StatusConf, args: StatusArgs, propIsFalse: (string, string) -> bool,
                   matches: (string, string) -> bool)
    ensures var f := PropertyFlags(name, conf, args.mainFs, propIsFalse);
            !(f.snap || f.clean || f.send) ==> Decide(name, conf, args, propIsFalse, matches).None?
    ensures var d := Decide(name, conf, args, propIsFalse, matches);
            d.Some? ==>
              && (d.value.flags.snap || d.value.flags.clean || PropertyFlags(name, conf, args.mainFs, propIsFalse).send)
              && Passes(args.filterSnap, d.value.flags.snap)
              && Passes(args.filterClean, d.value.flags.clean)
              && Passes(args.filterSend, d.value.flags.send)
              && (d.value.dest.Some? <==> PropertyFlags(name, conf, args.mainFs, propIsFalse).send)
              && (d.value.flags.send <==> d.value.dest.Some? && AnyTruthy(d.value.dest.value))
  {
  }

  /** The masked destination list is never longer than the configured one, and a masked slot keeps its destination. */
  lemma SendDestsSpec(name: string, conf: StatusConf, matches: (string, string) -> bool)
    requires DestTruthy(conf.dest)
    ensures var d := SendDests(name, conf, matches);
            && 0 < |d| <= |conf.dest.value|
            && forall i :: 0 <= i < |d| ==> d[i] == Excluded || d[i] == Dest(conf.dest.value[i])
  {
  }

  // ---- the record ---------------------------------------------------------

  /** `conf.get(t, 0) or 0`: the configured count, 0 when it is absent or `None`. */
  function Configured(quotas: map<string, Option<int>>, t: string): int
  {
    if t in quotas && quotas[t].Some? then quotas[t].value else 0
  }

  /** `str(found) + '/' + str(configured)`. */
  function CountText(found: nat, configured: int): string
  {
    IntToString(found) + "/" + IntToString(configured)
  }

  /** `str(i)` holds no `/`. */
  lemma NoSlashInIntToString(i: int)
    ensures '/' !in IntToString(i)
  {
    var d := if i < 0 then NatToString(-i) else NatToString(i);
    assert forall k :: 0 <= k < |d| ==> IsDigit(d[k]);
    if i < 0 {
      assert IntToString(i) == "-" + d;
    }
  }

  /** The count text splits at its `/` back into the two numbers, as Python's `int` reads them. */
  lemma CountTextRoundTrip(found: nat, configured: int)
    ensures var s := CountText(found, configured);
            && PyInt(UntilChar(s, '/')) == Some(found as int)
            && PyInt(LastField(s, '/')) == Some(configured)
  {
    var a, b := IntToString(found), IntToString(configured);
    NoSlashInIntToString(found);
    NoSlashInIntToString(configured);
    UntilCharOfJoin(a, '/', b);
    LastFieldOfJoin(a, '/', b);
    PyIntOfIntToString(found, "");
    PyIntOfIntToString(configured, "");
    assert a + "" == a && b + "" == b;
  }

  /** `any([len(snapshots[t]) < counts[t] for t in SNAPSHOT_TYPES])`. */
  predicate Missing(snaps: seq<string>, types: seq<string>, quotas: map<string, Option<int>>)
    requires AllSnapshotNames(snaps)
  {
    exists k :: 0 <= k < |types| && |Bucket(snaps, StatusPrefixes, types[k])| < Configured(quotas, types[k])
  }

  /** The level the status is logged at. */
  function Level(snaps: seq<string>, types: seq<string>, quotas: map<string, Option<int>>): int
    requires AllSnapshotNames(snaps)
  {
    if Missing(snaps, types, quotas) then LogLevels.WARNING else LogLevels.INFO
  }

  /** A value of the status record. */
  datatype Field =
    | Str(s: string)
    | Flag(b: bool)
    | Number(n: int)
    | Dests(d: Option<seq<DestSlot>>)
    | Property(p: Option<string>)

  type Record = map<string, Field>

  /** The record before the per-type counts are added, given `len(fs_snapshots)` and `pyznap_snapshots`. */
  function BaseRecord(name: string, d: Decision, conf: StatusConf, listed: nat, counted: nat): Record
  {
    map[
      "name" := Str(name),
      "snap" := Flag(d.flags.snap),
      "clean" := Flag(d.flags.clean),
      "send" := Flag(d.flags.send),
      "dest" := Dests(d.dest),
      "snapshots" := Number(listed),
      "pyznap_snapshots" := Number(counted),
      "snap_exclude_property" := Property(conf.snapExcludeProperty),
      "send_exclude_property" := Property(conf.sendExcludeProperty)]
  }

  /** The count text of type `t`. */
  function TypeCount(snaps: seq<string>, quotas: map<string, Option<int>>, t: string): Field
    requires AllSnapshotNames(snaps)
  {
    Str(CountText(|Bucket(snaps, StatusPrefixes, t)|, Configured(quotas, t)))
  }

  /** `for stype in SNAPSHOT_TYPES: status[stype] = ...` over the first types. */
  function WithTypeCounts(rec: Record, snaps: seq<string>, types: seq<string>, quotas: map<string, Option<int>>): Record
    requires AllSnapshotNames(snaps)
  {
    if types == [] then rec
    else
      var t := types[|types| - 1];
      WithTypeCounts(rec, snaps, types[..|types| - 1], quotas)[t := TypeCount(snaps, quotas, t)]
  }

  /** Adding the counts sets each type's key to its count text and keeps every other key of the record. */
  lemma {:induction false} WithTypeCountsSpec(rec: Record, snaps: seq<string>, types: seq<string>,
                                              quotas: map<string, Option<int>>)
    requires AllSnapshotNames(snaps)
    ensures var r := WithTypeCounts(rec, snaps, types, quotas);
            && (forall k :: k in r <==> k in rec || k in types)
            && (forall t :: t in types ==> r[t] == TypeCount(snaps, quotas, t))
            && (forall k :: k in rec && k !in types ==> r[k] == rec[k])
    decreases |types|
  {
    if types != [] {
      var init := types[..|types| - 1];
      WithTypeCountsSpec(rec, snaps, init, quotas);
      assert types == init + [types[|types| - 1]];
    }
  }

  /** The first of `keys` that the record lacks: the key of the `KeyError` the projection raises. */
  function FirstAbsent(keys: seq<string>, rec: Record): (r: Option<string>)
    ensures r.None? <==> forall i :: 0 <= i < |keys| ==> keys[i] in rec
    ensures r.Some? ==> r.value in keys && r.value !in rec
  {
    if keys == [] then None
    else if keys[0] !in rec then Some(keys[0])
    else
      var r := FirstAbsent(keys[1..], rec);
      assert forall i :: 1 <= i < |keys| ==> keys[i] == keys[1..][i - 1];
      r
  }

  /** `if values: status = {k: status[k] for k in values}`. */
  function Project(rec: Record, values: Option<seq<string>>): Result<Record, string>
  {
    if values.None? || values.value == [] then Ok(rec)
    else
      match FirstAbsent(values.value, rec)
      case Some(k) => Err(k)
      case None => Ok(map k | k in values.value :: rec[k])
  }

  /**
   * With a non-empty `values`, the projection fails exactly when one of the
   * keys is not in the record, naming such a key; otherwise the projected
   * record has exactly the keys of `values`, each with the record's value.
   * Without `values` the record is kept whole.
   */
  lemma ProjectSpec(rec: Record, values: Option<seq<string>>)
    ensures values.None? || values.value == [] ==> Project(rec, values) == Ok(rec)
    ensures values.Some? && values.value != [] ==>
              (Project(rec, values).Err? <==> exists i :: 0 <= i < |values.value| && values.value[i] !in rec)
    ensures Project(rec, values).Err? ==> Project(rec, values).error in values.value &&
                                          Project(rec, values).error !in rec
    ensures values.Some? && values.value != [] && Project(rec, values).Ok? ==>
              && (forall k :: k in Project(rec, values).value <==> k in values.value)
              && (forall k :: k in Project(rec, values).value ==> Project(rec, values).value[k] == rec[k])
  {
  }

  // ---- status_filesystem ----------------------------------------------------

  datatype StatusOutcome =
    | NoStatus                      // a bare `return`: nothing to report, or a filter does not match
    | OpenFailed                    // listing raised: `return 1`
    | Reported(level: int, record: Record)
    | ProjectionKeyError(key: string)  // `status[k]` raised KeyError

  /** The record, before projection, for a listed dataset. */
  function FullRecord(name: string, d: Decision, conf: StatusConf, snaps: seq<string>, types: seq<string>): Record
    requires AllSnapshotNames(snaps)
  {
    WithTypeCounts(BaseRecord(name, d, conf, |snaps|, TotalBucketed(snaps, StatusPrefixes, types)), snaps, types, conf.quotas)
  }

  /** What `status_filesystem` reports, as a function of its inputs. */
  function StatusSpec(name: string, conf: StatusConf, listing: Option<seq<string>>, types: seq<string>,
                      args: StatusArgs, propIsFalse: (string, string) -> bool,
                      matches: (string, string) -> bool): StatusOutcome
    requires listing.Some? ==> AllSnapshotNames(listing.value)
  {
    match Decide(name, conf, args, propIsFalse, matches)
    case None => NoStatus
    case Some(d) =>
      match listing
      case None => OpenFailed
      case Some(snaps) =>
        match Project(FullRecord(name, d, conf, snaps, types), args.values)
        case Err(k) => ProjectionKeyError(k)
        case Ok(r) => Reported(Level(snaps, types, conf.quotas), r)
  }

  /** `sum(len(s) for s in snapshots.values())` over the categorised buckets. */
  function SumLengths(buckets: map<string, seq<string>>, types: seq<string>): nat
    requires forall k :: 0 <= k < |types| ==> types[k] in buckets
  {
    if types == [] then 0
    else SumLengths(buckets, types[..|types| - 1]) + |buckets[types[|types| - 1]]|
  }

  /** The buckets once reversed hold as many snapshots as the unreversed ones. */
  lemma {:induction false} SumLengthsOfBuckets(buckets: map<string, seq<string>>, snaps: seq<string>, types: seq<string>)
    requires AllSnapshotNames(snaps)
    requires forall k :: 0 <= k < |types| ==> types[k] in buckets &&
                                              buckets[types[k]] == Reverse(Bucket(snaps, StatusPrefixes, types[k]))
    ensures SumLengths(buckets, types) == TotalBucketed(snaps, StatusPrefixes, types)
    decreases |types|
  {
    if types != [] {
      SumLengthsOfBuckets(buckets, snaps, types[..|types| - 1]);
    }
  }

  /** `dest`, masked by the loop when `conf['exclude']` is truthy. */
  method Destinations(name: string, conf: StatusConf, matches: (string, string) -> bool)
    returns (slots: seq<DestSlot>)
    requires DestTruthy(conf.dest)
    ensures slots == SendDests(name, conf, matches)
  {
    var dest := conf.dest.value;
    if conf.exclude.Some? && conf.exclude.value != [] {
      slots := MaskDestinations(name, conf.exclude.value, dest, matches);
    } else {
      slots := Unmasked(dest);
    }
  }

  /** The part of `status_filesystem` before the listing: the flags, the filters and the destinations. */
  method DecideStatus(name: string, conf: StatusConf, args: StatusArgs, propIsFalse: (string, string) -> bool,
                      matches: (string, string) -> bool)
    returns (decision: Option<Decision>)
    ensures decision == Decide(name, conf, args, propIsFalse, matches)
  {
    var snap, clean := conf.snap, conf.clean;
    var send := DestTruthy(conf.dest);
    var snapProp := conf.snapExcludeProperty;
    if !args.mainFs && Truthy(snapProp) && propIsFalse(name, snapProp.value) {
      snap, clean := false, false;
    }
    var sendProp := conf.sendExcludeProperty;
    if !args.mainFs && Truthy(sendProp) && propIsFalse(name, sendProp.value) {
      send := false;
    }
    assert Flags(snap, clean, send) == PropertyFlags(name, conf, args.mainFs, propIsFalse);
    if !(snap || clean || send) {
      return None;
    }
    if args.filterSnap.Some? && snap != args.filterSnap.value {
      return None;
    }
    if args.filterClean.Some? && clean != args.filterClean.value {
      return None;
    }
    ghost var f := Flags(snap, clean, send);
    var dest: Option<seq<DestSlot>> := None;
    if send {
      var slots := Destinations(name, conf, matches);
      dest := Some(slots);
      send := AnyTruthy(slots);
    }
    assert dest == (if f.send then Some(SendDests(name, conf, matches)) else None);
    assert send == (f.send && AnyTruthy(dest.value));
    if args.filterSend.Some? && send != args.filterSend.value {
      return None;
    }
    return Some(Decision(Flags(snap, clean, send), dest));
  }

  /** `for stype in SNAPSHOT_TYPES: status[stype] = str(len(snapshots[stype])) + '/' + str(counts[stype])`. */
  method AddTypeCounts(base: Record, snaps: seq<string>, buckets: map<string, seq<string>>, types: seq<string>,
                       quotas: map<string, Option<int>>)
    returns (status: Record)
    requires AllSnapshotNames(snaps)
    requires forall k :: 0 <= k < |types| ==> types[k] in buckets &&
                                              |buckets[types[k]]| == |Bucket(snaps, StatusPrefixes, types[k])|
    ensures status == WithTypeCounts(base, snaps, types, quotas)
  {
    status := base;
    var i := 0;
    while i < |types|
      invariant 0 <= i <= |types|
      invariant status == WithTypeCounts(base, snaps, types[..i], quotas)
    {
      var stype := types[i];
      assert status[stype := Str(CountText(|buckets[stype]|, Configured(quotas, stype)))] ==
             WithTypeCounts(base, snaps, types[..i + 1], quotas) by {
        WithTypeCountsStep(base, snaps, types, i, quotas);
      }
      status := status[stype := Str(CountText(|buckets[stype]|, Configured(quotas, stype)))];
      i := i + 1;
    }
    assert types[..i] == types;
  }

  lemma WithTypeCountsStep(base: Record, snaps: seq<string>, types: seq<string>, i: nat,
                           quotas: map<string, Option<int>>)
    requires AllSnapshotNames(snaps) && i < |types|
    ensures WithTypeCounts(base, snaps, types[..i + 1], quotas) ==
            WithTypeCounts(base, snaps, types[..i], quotas)[types[i] := TypeCount(snaps, quotas, types[i])]
  {
    assert types[..i + 1][..i] == types[..i];
  }

  /**
   * `status_filesystem(filesystem, conf, ...)` with `SNAPSHOT_TYPES` as
   * `types`: the flags, the destination masking, the categorising and
   * reversing loops and the record, as `StatusSpec` states.
   */
  method StatusFilesystem(name: string, conf: StatusConf, listing: Option<seq<string>>, types: seq<string>,
                          args: StatusArgs, propIsFalse: (string, string) -> bool, matches: (string, string) -> bool)
    returns (outcome: StatusOutcome)
    requires Distinct(types)
    requires listing.Some? ==> AllSnapshotNames(listing.value)
    ensures outcome == StatusSpec(name, conf, listing, types, args, propIsFalse, matches)
  {
    var decision := DecideStatus(name, conf, args, propIsFalse, matches);
    if decision.None? {
      return NoStatus;
    }
    if listing.None? {
      return OpenFailed;
    }
    var d, snaps, quotas := decision.value, listing.value, conf.quotas;
    var buckets := Categorize(snaps, types, StatusPrefixes);
    buckets := ReverseBuckets(buckets, types);
    assert forall k :: 0 <= k < |types| ==> types[k] in buckets &&
                                            buckets[types[k]] == Reverse(Bucket(snaps, StatusPrefixes, types[k]));
    assert forall k :: 0 <= k < |types| ==> |buckets[types[k]]| == |Bucket(snaps, StatusPrefixes, types[k])|;
    var missing := exists k :: 0 <= k < |types| && |buckets[types[k]]| < Configured(quotas, types[k]);
    var level := if missing then LogLevels.WARNING else LogLevels.INFO;
    assert level == Level(snaps, types, quotas);
    var total := SumLengths(buckets, types);
    assert total == TotalBucketed(snaps, StatusPrefixes, types) by {
      SumLengthsOfBuckets(buckets, snaps, types);
    }
    var status := AddTypeCounts(BaseRecord(name, d, conf, |snaps|, total), snaps, buckets, types, quotas);
    match Project(status, args.values)
    case Err(k) =>
      outcome := ProjectionKeyError(k);
    case Ok(r) =>
      outcome := Reported(level, r);
  }

  // ---- properties of the status -------------------------------------------

  /** Nothing is reported on a dataset none of snap, clean and send applies to, nor when a filter is not met. */
  lemma NothingToReport(name: string, conf: StatusConf, listing: Option<seq<string>>, types: seq<string>,
                        args: StatusArgs, propIsFalse: (string, string) -> bool, matches: (string, string) -> bool)
    requires listing.Some? ==> AllSnapshotNames(listing.value)
    ensures var f := PropertyFlags(name, conf, args.mainFs, propIsFalse);
            (!(f.snap || f.clean || f.send) || !Passes(args.filterSnap, f.snap) || !Passes(args.filterClean, f.clean)) ==>
              StatusSpec(name, conf, listing, types, args, propIsFalse, matches) == NoStatus
    ensures StatusSpec(name, conf, listing, types, args, propIsFalse, matches) == NoStatus <==>
              Decide(name, conf, args, propIsFalse, matches).None?
    ensures StatusSpec(name, conf, listing, types, args, propIsFalse, matches) == OpenFailed <==>
              Decide(name, conf, args, propIsFalse, matches).Some? && listing.None?
  {
  }

  /**
   * The level is WARNING exactly when some type has fewer pyznap snapshots
   * than configured, and INFO otherwise.
   */
  lemma LevelSpec(snaps: seq<string>, types: seq<string>, quotas: map<string, Option<int>>)
    requires AllSnapshotNames(snaps)
    ensures Level(snaps, types, quotas) == LogLevels.WARNING <==>
              exists t :: t in types && |Bucket(snaps, StatusPrefixes, t)| < Configured(quotas, t)
    ensures Level(snaps, types, quotas) == LogLevels.INFO <==>
              forall t :: t in types ==> |Bucket(snaps, StatusPrefixes, t)| >= Configured(quotas, t)
  {
    if exists t :: t in types && |Bucket(snaps, StatusPrefixes, t)| < Configured(quotas, t) {
      var t :| t in types && |Bucket(snaps, StatusPrefixes, t)| < Configured(quotas, t);
      var k :| 0 <= k < |types| && types[k] == t;
    }
  }

  /**
   * Only snapshots whose name part starts with `pyznap` are counted, once
   * each with distinct types, so `pyznap_snapshots` never exceeds
   * `snapshots`.
   */
  lemma CountedArePyznap(snaps: seq<string>, types: seq<string>, t: string, x: string)
    requires AllSnapshotNames(snaps) && Distinct(types)
    ensures x in Bucket(snaps, StatusPrefixes, t) <==>
              x in snaps && StartsWith(SnapPart(x), "pyznap") && TypeOf(x) == t
    ensures TotalBucketed(snaps, StatusPrefixes, types) <= |snaps|
  {
    BucketMembers(snaps, StatusPrefixes, t, x);
    if x in snaps {
      assert HasAnyPrefix(SnapPart(x), StatusPrefixes) <==> StartsWith(SnapPart(x), "pyznap") by {
        if StartsWith(SnapPart(x), "pyznap") {
          assert StartsWith(SnapPart(x), StatusPrefixes[0]);
        }
      }
    }
    TotalBucketedBound(snaps, StatusPrefixes, types);
  }

  /**
   * A full record holds the flags, the destinations, both snapshot counts
   * and, for every type, `found/configured`, where `found` is the number of
   * pyznap snapshots of that type and `configured` the configured count, 0
   * when absent or `None`; a type that shares its name with a fixed key
   * replaces that key's value.
   */
  lemma FullRecordSpec(name: string, d: Decision, conf: StatusConf, snaps: seq<string>, types: seq<string>)
    requires AllSnapshotNames(snaps)
    ensures var r := FullRecord(name, d, conf, snaps, types);
            var base := BaseRecord(name, d, conf, |snaps|, TotalBucketed(snaps, StatusPrefixes, types));
            && (forall k :: k in r <==> k in base || k in types)
            && (forall t :: t in types ==>
                  (t in r && r[t] == Str(CountText(|Bucket(snaps, StatusPrefixes, t)|, Configured(conf.quotas, t)))))
            && (forall k :: k in base && k !in types ==> (k in r && r[k] == base[k]))
  {
    var base := BaseRecord(name, d, conf, |snaps|, TotalBucketed(snaps, StatusPrefixes, types));
    WithTypeCountsSpec(base, snaps, types, conf.quotas);
  }

  /** The fixed keys of the record and what they hold. */
  lemma BaseRecordSpec(name: string, d: Decision, conf: StatusConf, listed: nat, counted: nat)
    ensures var base := BaseRecord(name, d, conf, listed, counted);
            && base.Keys == {"name", "snap", "clean", "send", "dest", "snapshots", "pyznap_snapshots",
                             "snap_exclude_property", "send_exclude_property"}
            && "snap" in base && base["snap"] == Flag(d.flags.snap)
            && "clean" in base && base["clean"] == Flag(d.flags.clean)
            && "send" in base && base["send"] == Flag(d.flags.send)
            && "dest" in base && base["dest"] == Dests(d.dest)
            && "snapshots" in base && base["snapshots"] == Number(listed)
            && "pyznap_snapshots" in base && base["pyznap_snapshots"] == Number(counted)
  {
  }
}
