# pyznap decision core in Dafny

pyznap is a ZFS snapshot tool. It takes snapshots by a retention policy,
cleans the ones beyond each policy's keep-count, reports per-dataset
snapshot status, renames snapshots taken by other tools to its own naming
scheme, and replicates datasets. This project models and proves the
decision logic of four of its parts:

- **the retention cleaner** (`pyznap/clean.py`): `clean_snap`,
  `clean_filesystem` and the driver loop `clean_config`. Snapshots whose
  part after `@` starts with `pyznap` or `autosnap` are bucketed by the type
  after their last `_`. Each bucket is reversed to newest first. Within it,
  everything past the type's keep-count is destroyed, walking the types
  from the last to the first.
- **the status summariser** (`pyznap/status.py`, `status_filesystem`). It
  derives the snap/clean/send flags from the configuration and the exclude
  properties, masks the destinations that exclude patterns match, counts
  the `pyznap` snapshots per type as `found/configured`, raises the level
  to WARNING when a type is short, and projects the record onto `values`.
- **the foreign-name converter** (`pyznap/fix.py`). It resolves the
  `@zfs-auto-snap` and `@zfsnap` aliases. It reads the named groups of a
  match with defaults taken from `now`, completes two-digit years with the
  current century, and maps the type through the table with a fallback.
  The result is the name `pyznap_YYYY-MM-DD_HH:MM:SS_<type>`, which the
  renaming loop uses for every matching snapshot.
- **the run control of the command line** (`pyznap/main.py`). This covers
  the log level, the phases each command runs, the routing of SSH keys and
  the wrapping of `send` options, `check_pid` over the pid file, and the
  exit code together with the pid file's lifecycle.

The files are as follows:

- `wrappers.dfy`: `Option`/`Result`, the logging levels and `Flatten`.
- `text.dfy`: the Python string built-ins the code relies on: `startswith`,
  `split(c)[1]`, `split(c)[-1]`, `str(int)`, `strip`, `int()` and zero
  padding. They are written out over `seq<char>`.
- `snapshots.dfy`: the categorise-and-reverse step that clean and status
  share.
- `clean.dfy`, `cleanconfig.dfy`: the cleaner.
- `status.dfy`: the status summariser.
- `fix.dfy`: the converter.
- `cli.dfy`: the front end.

Each loop of the source, except the fill of the `counts` dictionary in
`status_filesystem` (the function `Status.Configured`), is a method with
loop invariants, proved equal to a specification function. The properties are proved about those functions.
`check_pid` changes the pid file, so the pid file is a class whose
`contents` field the methods update.

Calls into ZFS, SSH, the regular expression engine, `fnmatch`, `psutil` and
the clock are parameters:

- `listings`/`listing`: a dataset's snapshots, or `None` when listing
  raises.
- `destroy`: the outcome of `snap.destroy()`.
- `propIsFalse`: `ispropval(..., check='false')`.
- `matches`: `fnmatch`.
- `matcher`: `re.match`, giving the named groups or `None`.
- `now`: the clock.
- `isAlive`: `psutil` liveness.
- `run`: how the take/send/clean drivers end. The `Missing dest`/`Missing
  source` error that `_main` logs itself for a one-ended `send` is part of
  the model, not of `run`.

`SNAPSHOT_TYPES` is the parameter `types`, a sequence of distinct type
names.

Where the source's behaviour is surprising, the model follows the code:

- An unknown `@` alias in `fix_snapshots` calls `sys.exit(1)`, but `sys` is
  not imported there. It therefore raises `NameError`, which the model
  calls `UnknownAlias`.
- `format=None` raises on `None.startswith` (`FormatMissing`).
- `-q` sets the level to ERROR, although its help text says WARNING.
- A `CalledProcessError` from `find_exclude` in `clean_config` is logged,
  and the entry is skipped like the other errors.

## Model

| member | source | states |
|---|---|---|
| Snapshots.Categorize | pyznap/clean.py:59-75 | the loop yields exactly one bucket per snapshot type, holding in listing order the snapshots with a managed prefix and that type |
| Snapshots.BucketMembers | pyznap/clean.py:67-75 | a snapshot is in the bucket of `t` iff it is listed, its part after `@` has a managed prefix and its text after the last `_` is `t` |
| Snapshots.BucketNoDuplicates | pyznap/clean.py:72-73 | a listing without repeats gives buckets without repeats |
| Snapshots.ReverseBuckets | pyznap/clean.py:78-79 | the in-place reversal leaves the same types, each bucket reversed |
| Snapshots.ReverseAt | pyznap/clean.py:78-79 | position `k` of a reversed bucket holds position `n-1-k` of the original |
| Snapshots.ReverseMultiset | pyznap/clean.py:78-79 | reversing a bucket is a permutation of it |
| Snapshots.HitsAtMostOne | pyznap/clean.py:72-73 | a snapshot lands in at most one bucket, and in none when its type is unknown |
| Snapshots.TotalBucketedBound | pyznap/status.py:118 | the snapshots counted over all buckets are at most the snapshots listed |
| Clean.SliceStart | pyznap/clean.py:82 | Python's slice start `[k:]` (None, negative or beyond the end) lies within the bucket |
| Clean.DoomedAreOldest | pyznap/clean.py:77-83 | the destroyed part of a newest-first bucket is exactly its oldest snapshots, newest of them first |
| Clean.DoomedCount | pyznap/clean.py:82 | exactly max(0, len(bucket) − keep) snapshots of a type are destroyed, and all of them when the keep-count is None |
| Clean.ExecuteShape | pyznap/clean.py:32-42 | `clean_snap` over the plan attempts a prefix of it, stops right after a KeyboardInterrupt and only there, attempts it all otherwise, and a snapshot counts as destroyed iff its destroy succeeded |
| Clean.ExecuteContinuesPastFailures | pyznap/clean.py:32-38 | busy datasets and failed destroy commands are logged and the remaining deletions all go ahead |
| Clean.ExecuteStops | pyznap/clean.py:39-42 | after a re-raised KeyboardInterrupt nothing more is attempted |
| Clean.DestroyEach | pyznap/clean.py:82-83 | the inner loop over one type's victims continues the run exactly as the specification of `clean_snap` says |
| Clean.DestroyBuckets | pyznap/clean.py:81-83 | the loop over newest-first buckets, last type to first, reports exactly the run of the plan read off the buckets: interrupted at a KeyboardInterrupt, a KeyError at the first type without a keep-count, completed otherwise |
| Clean.BucketPlanIsPlan | pyznap/clean.py:59-83 | slicing `snapshots[stype][conf[stype]:]` off the categorized, reversed buckets schedules the same snapshots, and stops at the same missing key, as the plan over the listing |
| Clean.DestroyBeyondQuotas | pyznap/clean.py:77-83 | the loop over the types, last to first, attempts and destroys what the clean specification says |
| Clean.CleanFilesystem | pyznap/clean.py:45-83 | `clean_filesystem` equals its specification function, and a failed listing gives the `return 1` outcome with nothing attempted |
| Clean.PlanMembers | pyznap/clean.py:67-75 | every snapshot scheduled for destruction is listed, has a managed prefix and a known type |
| Clean.PlanNoDuplicates | pyznap/clean.py:72-73 | no snapshot is scheduled twice |
| Clean.PlanOfType | pyznap/clean.py:81-83 | the part of the plan of each type is exactly that type's doomed snapshots, or nothing when the type is not walked |
| Clean.DestroyedPerType | pyznap/clean.py:77-83 | per type, the destroyed snapshots are the reversed oldest ones, max(0, len − keep) of them |
| Clean.PlanOrder | pyznap/clean.py:81-83 | the plan visits the types in reverse `SNAPSHOT_TYPES` order |
| Clean.KeptAreNewest | pyznap/clean.py:77-83 | what survives of each bucket is its newest `keep` snapshots in listing order |
| Clean.PlanIdempotentThrough | pyznap/clean.py:81-83 | over the snapshots that remain after a plan, the same configuration schedules nothing |
| Clean.CleanIdempotent | pyznap/clean.py:81-83 | a second clean after a successful one, with the same keep-counts, attempts nothing |
| Clean.MissingOnlyWithoutKey | pyznap/clean.py:82 | the KeyError outcome names a walked type that has no keep-count |
| Clean.CleanDestroysOnlyManaged | pyznap/clean.py:67-75 | only listed `pyznap`/`autosnap` snapshots of a known type are ever attempted, none of them twice |
| Clean.CleanOpenFailure | pyznap/clean.py:61-65 | a listing that raises NotFound/Busy returns 1 and destroys nothing |
| CleanConfig.ChildTargetsMembers | pyznap/clean.py:143-147 | a child is cleaned iff it is among the children and not excluded through the snap-exclude property set to `false` |
| CleanConfig.EntryTargetsSpec | pyznap/clean.py:99-147 | an entry without a truthy `clean`, or whose lookup fails, cleans nothing; otherwise its top dataset comes first, regardless of the exclude property, followed by the children not excluded |
| CleanConfig.CleanTargetsMembers | pyznap/clean.py:99-147 | a dataset is cleaned during the run iff some entry cleans it |
| CleanConfig.UntilRaiseShape | pyznap/clean.py:99-147 | the run keeps a prefix of the reports, stops right after the first one that raises (KeyboardInterrupt, KeyError), and keeps them all when none raises |
| CleanConfig.RunTargetsShape | pyznap/clean.py:99-147 | each report of a run is `clean_filesystem`'s outcome for its dataset, and only the last can have raised |
| CleanConfig.CleanTarget | pyznap/clean.py:141 | one `clean_filesystem` call extends the run by its report |
| CleanConfig.CleanChildren | pyznap/clean.py:143-147 | the loop over the children cleans exactly the children not excluded, in order, until one raises |
| CleanConfig.CleanEntryRun | pyznap/clean.py:100-147 | one entry extends the run by its targets |
| CleanConfig.CleanConfig | pyznap/clean.py:86-150 | `clean_config` runs `clean_filesystem` over all the entries' targets in order until an exception escapes |
| Status.FlagsFromProperties | pyznap/status.py:39-52 | snap and clean are dropped iff a non-main dataset has the snap-exclude property set to `false`; send is dropped iff it has the send-exclude property set to `false`; for the main dataset both properties are ignored |
| Status.MaskDestinations | pyznap/status.py:67-78 | the masked list pairs exclude lists with destinations up to the shorter of the two, and a position is False iff a pattern of its list matches the dataset name, otherwise it keeps its destination |
| Status.SendDestsSpec | pyznap/status.py:66-79 | with destinations, the masked list is nonempty, no longer than `dest`, and each position is False or its destination |
| Status.Destinations | pyznap/status.py:66-79 | the `sending` computation equals its specification |
| Status.DecideSpec | pyznap/status.py:53-84 | nothing is reported without a flag or when a filter disagrees; a report's send flag holds iff some destination survived masking, and `dest` is present iff send was configured |
| Status.DecideStatus | pyznap/status.py:39-88 | the flag and filter logic equals the decision function |
| Status.CountTextRoundTrip | pyznap/status.py:139 | a `found/configured` text reads back as the two numbers on both sides of the `/` |
| Status.SumLengthsOfBuckets | pyznap/status.py:118 | `pyznap_snapshots`, the sum of the bucket lengths, is the number of counted snapshots |
| Status.WithTypeCountsSpec | pyznap/status.py:138-139 | the record gains exactly one key per type, holding that type's `found/configured` text, and the other keys keep their values |
| Status.AddTypeCounts | pyznap/status.py:138-139 | the loop over the types fills in those texts from the bucket lengths |
| Status.FirstAbsent | pyznap/status.py:145 | it finds a requested key missing from the record iff there is one |
| Status.ProjectSpec | pyznap/status.py:144-145 | an empty or absent `values` keeps the whole record; otherwise the record has exactly the requested keys with their values, or a KeyError names a requested key missing from it |
| Status.StatusFilesystem | pyznap/status.py:22-150 | `status_filesystem` equals its specification function |
| Status.NothingToReport | pyznap/status.py:53-59 | no flag, or a disagreeing snap/clean filter, gives no status; no status iff the decision gives none; `return 1` iff a status was decided and the listing failed |
| Status.LevelSpec | pyznap/status.py:112-124 | the level is WARNING iff some type has fewer snapshots than configured, INFO otherwise |
| Status.CountedArePyznap | pyznap/status.py:98-106 | only `pyznap`-prefixed snapshots are counted, and the count is at most the listing's length |
| Status.FullRecordSpec | pyznap/status.py:127-139 | the record has the nine base keys plus one per type; each type's value is `found/configured`, with the configured count 0 when missing or None |
| Status.BaseRecordSpec | pyznap/status.py:127-137 | the base record holds exactly the nine keys with the flags, destinations and counts |
| Fix.ZfsnapMapValues | pyznap/fix.py:25-42 | every zfsnap code maps to frequent, hourly, daily, weekly, monthly or yearly |
| Fix.ResolveFormatSpec | pyznap/fix.py:65-72 | a plain pattern is used as given; `@zfsnap` brings its map only when no non-empty map was given; `@zfs-auto-snap` brings none; an unknown alias and a missing format end the run |
| Fix.ReGetGroupIntSpec | pyznap/fix.py:44-52 | a group the pattern lacks gives the default; a group with no match raises TypeError; a group's digits give their number (and `str(n)` gives `n`); other text raises ValueError |
| Fix.CompleteYearSpec | pyznap/fix.py:109-111 | a year below 100 lands in the current century with its last two digits kept; other years, and the current year, are unchanged |
| Fix.GuessYearDefault | pyznap/fix.py:109 | without a `year` group the year is `now.year` |
| Fix.ResolveTypeSpec | pyznap/fix.py:113-121 | a raw type the map knows becomes its image and any other is kept; the fallback applies exactly when that leaves no type; the snapshot is skipped exactly when there is still none |
| Fix.PyznapNameRoundTrip | pyznap/fix.py:122-128 | the new name `pyznap_` + zero-padded `YYYY-MM-DD_HH:MM:SS` + `_` + type reads back as the timestamp and the type |
| Fix.StampParts | pyznap/fix.py:128 | the date and time parts have fixed widths, 10 and 8, and read back as their fields |
| Fix.NewNameFromNow | pyznap/fix.py:122-127 | with no date groups, every field of the timestamp comes from `now` |
| Fix.NewNameMatched | pyznap/fix.py:104-128 | a new name is only given to a snapshot whose name matches the pattern and that has a type group; it is a pyznap name with a valid timestamp and the resolved type |
| Fix.RenamedIsManaged | pyznap/fix.py:130 | the target `fsname@new_snapname` is a snapshot name that clean and status manage, and its type is the resolved type |
| Fix.RenameRunSources | pyznap/fix.py:101-130 | every rename is of a visited snapshot that got a new name, to `fsname@new_snapname` |
| Fix.RenameRunComplete | pyznap/fix.py:101-130 | without an exception, every visited snapshot that gets a new name is renamed |
| Fix.RenameRunStops | pyznap/fix.py:101-130 | after an exception nothing more is renamed |
| Fix.FixRenamesMatching | pyznap/fix.py:54-130 | each rename follows a successful format resolution, is of a visited snapshot matching the pattern, and targets `fsname@pyznap_<stamp>_<type>` with a valid timestamp and a non-empty type |
| Fix.FixDataset | pyznap/fix.py:101-130 | the loop over one dataset's snapshots extends the run as the specification says |
| Fix.FixFilesystem | pyznap/fix.py:97-130 | the loop over a tree's datasets does the same |
| Fix.FixTrees | pyznap/fix.py:82-130 | the loop over the specified filesystems renames over the tree of each one that opens, or just that filesystem without recursion |
| Fix.FixSnapshots | pyznap/fix.py:54-130 | `fix_snapshots` equals its specification function |
| Cli.LogLevel | pyznap/main.py:141-148 | the level is INFO by default; `-q` gives ERROR, `-v` overrides it with DEBUG, and `-t` overrides both with 8 |
| Cli.RootLevelSpec | pyznap/main.py:150 | the root level is min(level, INFO) with `--syslog` and the level without; it never filters what the console shows |
| Cli.LogLevelOrder | pyznap/main.py:141-148 | the flags only lower the level, except `-q` alone, which raises it above INFO |
| Cli.ConfigPath | pyznap/main.py:184 | `--config` when given, otherwise `pyznap.conf` in `/etc/pyznap/` |
| Cli.WrapText | pyznap/main.py:225 | an option becomes `[v]` iff it is truthy, else None |
| Cli.WrapFlag | pyznap/main.py:223 | a flag becomes `[True]` iff set, else None |
| Cli.WrapInt | pyznap/main.py:229-231 | a number becomes `[v]` iff non-zero, so `--retries 0` becomes None |
| Cli.WrapList | pyznap/main.py:221 | the exclude list becomes `[list]` iff non-empty |
| Cli.ResolveKeysSpec | pyznap/main.py:210-219 | the generic key goes to an `ssh` destination as a one-element list; otherwise it goes to an `ssh` source as a scalar; an explicit source or destination key overrides; an empty key counts as none |
| Cli.GenericKeyOneSide | pyznap/main.py:212-216 | without explicit keys the generic key lands on at most one side, and never on the source when both sides are remote |
| Cli.EntryForSpec | pyznap/main.py:221-238 | the single send entry names the source and the one destination; each option is absent or `[v]` exactly when `v` is truthy |
| Cli.ActionsSpec | pyznap/main.py:189-207 | `full` takes, sends and cleans in order; `snap` takes iff `--take`, `--full` or no `--clean`, and likewise cleans, always taking first; only `send` and `full` send |
| Cli.SendActionsSpec | pyznap/main.py:209-245 | `send` with both ends sends exactly the entry built from the options; with one end it reports the missing one; with neither it sends the configuration |
| Cli.PidCheckSpec | pyznap/main.py:31-49 | `check_pid` refuses iff the file holds the pid of a live process, and then keeps the file; when it proceeds, no pid file is left |
| Cli.PidTextRead | pyznap/main.py:179 | the pid written as `"{pid}\n"` reads back as that pid |
| Cli.SecondInstanceRefused | pyznap/main.py:36-42 | while the writer lives, a second instance is refused and the file is untouched |
| Cli.StalePidFileRemoved | pyznap/main.py:43-48 | once the writer has died, the stale file is removed and the next instance proceeds |
| Cli.PidFile.CheckPid | pyznap/main.py:31-49 | the method's verdict and the left pid file agree with the `check_pid` function |
| Cli.ExitOfSpec | pyznap/main.py:180-252 | the exit code is 0 iff the drivers complete with no error logged, by them or by `_main` itself, after the configuration loads; a missing configuration, a logged error, a `send` given only one of `-s`/`-d`, or Ctrl-C gives 1 |
| Cli.Session | pyznap/main.py:175-252 | a refused pid check exits with 1 and leaves the file alone; otherwise the run's exit is as specified and the pid file is gone on every way out of the `try` block |

## Left out

- The `zfs.STATS` counters: a global singleton in a module not part of this model.
- All logging output and the JSON printing of `raw`. The model returns the record and level that would be logged or printed.
- `extra_snapshots` (pyznap/status.py:122): it is computed but never used.
- The `status_config` driver loop. It is not part of this model; its per-dataset step is `Status.StatusFilesystem`.
- `parse_name`, the SSH connection and its `close`, and `zfs.find_exclude` in `clean_config`: these are foreign calls, modelled as the `Lookup` input.
- An empty `find_exclude` result, which would make `children[0]` raise IndexError: the model's lookup always yields the entry's own dataset.
- `take_config`, `send_config`, `create_config`, `read_config`, `set_dry_run`: these modules are not part of this model. Their effect is the `run` and `configLoaded` parameters of `Cli.Session`.
- Argument parsing, the `--version` and missing-command exits, and the construction of log handlers: these are library plumbing.
- The regular expression engine: `matcher` gives the named groups. `re.compile` raising for an invalid user pattern (pyznap/fix.py:77) is not modelled; every pattern is taken to compile. For the same reason the bare `except` around `rp.match` never applies.
- Exceptions raised by `zfs.open` other than DatasetNotFoundError, and exceptions from `zfs.find`, `snapshots()` and `rename()` in `fix_snapshots`: the model treats these foreign calls as not raising.
- Fix.Stamp: `%Y` is written with four digits. The platform's `strftime` may write fewer for years below 1000.
- Text.PyInt: it accepts ASCII digits only. Python's `int()` also accepts other Unicode digits and `_` separators.
- Text.IsSpace: ASCII white space only.
- Cli.PidFile.CheckPid: `psutil.Process` raising ValueError for a negative pid ends in the same `except ValueError` branch as unparsable contents. The model expects `isAlive` to be false for such pids. AccessDenied and read errors are not modelled.
- Cli.Session: `os.unlink` in the `finally` raising when the file has vanished is not modelled. Neither is an interrupt outside the drivers.
- Configuration values are taken as the loader yields them: `snap`, `clean` and `ignore_not_existing` as booleans.
- Keys read with `conf[...]` are taken as present. In `clean_config` these are `name`, `key`, `snap_exclude_property` and `ignore_not_existing`. In `status_config` they are `name`, `key`, `snap_exclude_property`, `send_exclude_property`, `exclude` and `ignore_not_existing`. The exception is the keep count `conf[stype]` in `clean_filesystem`: its absence is modelled, as the KeyError outcome.
- Clean.DestroyOutcome: only DatasetBusyError, CalledProcessError, KeyboardInterrupt and success. Any other exception from `snap.destroy()` (pyznap/clean.py:31-41), such as DatasetNotFoundError, propagates out of `clean_config` and `_main` uncaught; the model has no outcome for it.
- Clean.CleanFilesystem, Status.StatusFilesystem: the `listings`/`listing` parameters give either the snapshots or the caught DatasetNotFoundError/DatasetBusyError (pyznap/clean.py:61-65, pyznap/status.py:92-96). Any other exception from `snapshots()` propagates uncaught in the source and is not modelled.
