/**
 * pyznap/fix.py: renaming snapshots taken by other tools (zfs-auto-snap,
 * zfsnap, or any pattern with named groups) to pyznap's own
 * `pyznap_YYYY-MM-DD_HH:MM:SS_<type>` names.
 *
 * The regular expression engine is the parameter `matcher`: for a pattern and
 * a snapshot name it gives `None` when the name does not match, and otherwise
 * the pattern's named groups, each with its text or `None` when the group did
 * not take part in the match.  `datetime.now()` is the parameter `now`.
 */
module Fix {
  import opened Wrappers
  import opened Sequences
  import opened Text
  import Snapshots
  import Clean

  // ---- the format aliases ---------------------------------------------------

  const ZfsAutoSnapFormat: string :=
    @"zfs-auto-snap_(?P<type>[a-z]+)-(?P<year>\d{2,4})-(?P<month>\d{2})-(?P<day>\d{2})-(?P<hour>\d{2})(?P<minute>\d{2})"

  const ZfsnapFormat: string :=
    @"(?P<year>\d{2,4})-(?P<month>\d{2})-(?P<day>\d{2})_(?P<hour>\d{2}).(?P<minute>\d{2}).(?P<second>\d{2})--(?P<type>\d+[a-z])"

  /** `FORMATS`: the patterns behind the `@` aliases. */
  const Formats: map<string, string> := map["@zfs-auto-snap" := ZfsAutoSnapFormat, "@zfsnap" := ZfsnapFormat]

  /** `MAPS['@zfsnap']`: zfsnap's retention codes and the pyznap type each becomes. */
  const ZfsnapMap: map<string, string> := map[
    "4d" := "frequent",
    "10d" := "hourly",
    "14d" := "hourly",
    "2w" := "hourly",
    "3w" := "daily",
    "5w" := "daily",
    "8w" := "daily",
    "2m" := "daily",
    "90d" := "weekly",
    "7m" := "weekly",
    "12m" := "monthly",
    "18m" := "monthly",
    "24m" := "monthly",
    "4y" := "yearly"]

  /** `MAPS`: the type maps behind the `@` aliases. */
  const Maps: map<string, map<string, string>> := map["@zfsnap" := ZfsnapMap]

  /** zfsnap's codes all map to pyznap's snapshot types. */
  lemma ZfsnapMapValues()
    ensures forall k :: k in ZfsnapMap ==>
              ZfsnapMap[k] in {"frequent", "hourly", "daily", "weekly", "monthly", "yearly"}
  {
  }

  /** The exceptions that end `fix_snapshots`: none of them is caught. */
  datatype FixError =
    | FormatMissing                 // `format=None`: `None.startswith` raises AttributeError
    | UnknownAlias(alias: string)   // `sys.exit(1)` with `sys` not imported raises NameError
    | NoTypeGroup                   // `r.group('type')` on a pattern without that group raises IndexError
    | NotAnInteger(group: string)   // `int()` of the group's text raises ValueError
    | GroupUnmatched(group: string) // `int(None)` raises TypeError
    | InvalidDate                   // `datetime(...)` raises ValueError

  /** A type map that Python treats as true: given and not empty. */
  predicate MapTruthy(m: Option<map<string, string>>)
  {
    m.Some? && m.value != map[]
  }

  /** The pattern and the type map `fix_snapshots` works with, lines 65-72. */
  function ResolveFormat(format: Option<string>, typeMap: Option<map<string, string>>)
    : Result<(string, Option<map<string, string>>), FixError>
  {
    match format
    case None => Err(FormatMissing)
    case Some(f) =>
      if !StartsWith(f, "@") then Ok((f, typeMap))
      else
        var tm := if !MapTruthy(typeMap) && f in Maps then Some(Maps[f]) else typeMap;
        if f in Formats then Ok((Formats[f], tm)) else Err(UnknownAlias(f))
  }

  /**
   * A pattern is used as given; `@zfsnap` brings its type map only when no
   * (non-empty) type map was given, `@zfs-auto-snap` brings none, and any
   * other alias ends the run.
   */
  lemma ResolveFormatSpec(format: Option<string>, typeMap: Option<map<string, string>>)
    ensures format.None? ==> ResolveFormat(format, typeMap) == Err(FormatMissing)
    ensures format.Some? && !StartsWith(format.value, "@") ==>
              ResolveFormat(format, typeMap) == Ok((format.value, typeMap))
    ensures format == Some("@zfsnap") ==>
              ResolveFormat(format, typeMap) ==
                Ok((ZfsnapFormat, if MapTruthy(typeMap) then typeMap else Some(ZfsnapMap)))
    ensures format == Some("@zfs-auto-snap") ==> ResolveFormat(format, typeMap) == Ok((ZfsAutoSnapFormat, typeMap))
    ensures format.Some? && StartsWith(format.value, "@") ==>
              (ResolveFormat(format, typeMap).Err? <==> format.value !in Formats)
    ensures ResolveFormat(format, typeMap).Err? ==> format.None? || format.value !in Formats
  {
    if format == Some("@zfsnap") || format == Some("@zfs-auto-snap") {
      assert StartsWith(format.value, "@");
    }
  }

  // ---- reading the groups of a match ----------------------------------------

  /** The named groups of a match: each group's text, or `None` when it did not take part. */
  type Groups = map<string, Option<string>>

  /** The Python values `re_get_group` can return. */
  datatype PyValue = NoneValue | StrValue(s: string) | IntValue(i: int)

  /** `re_get_group(r, group, default)`: `r[group]`, or `default` when the pattern has no such group. */
  function ReGetGroup(r: Groups, group: string, default: int): PyValue
  {
    if group !in r then IntValue(default)
    else if r[group].None? then NoneValue
    else StrValue(r[group].value)
  }

  /** `re_get_group_int(r, group, default)`: `int()` of that value. */
  function ReGetGroupInt(r: Groups, group: string, default: int): Result<int, FixError>
  {
    match ReGetGroup(r, group, default)
    case IntValue(i) => Ok(i)
    case NoneValue => Err(GroupUnmatched(group))
    case StrValue(s) =>
      match PyInt(s)
      case Some(i) => Ok(i)
      case None => Err(NotAnInteger(group))
  }

  /**
   * A group the pattern lacks gives the default; a group that took no part
   * raises; a group's text gives the number it spells (digits, leading zeros
   * allowed, as the patterns' `\d` groups match), in particular `str(n)` gives
   * `n`; text that is no number raises.
   */
  lemma ReGetGroupIntSpec(r: Groups, group: string, default: int, n: int)
    ensures group !in r ==> ReGetGroupInt(r, group, default) == Ok(default)
    ensures group in r && r[group].None? ==> ReGetGroupInt(r, group, default) == Err(GroupUnmatched(group))
    ensures group in r && r[group] == Some(IntToString(n)) ==> ReGetGroupInt(r, group, default) == Ok(n)
    ensures group in r && r[group].Some? && r[group].value != [] && AllDigits(r[group].value) ==>
              ReGetGroupInt(r, group, default) == Ok(DigitsValue(r[group].value))
    ensures group in r && r[group].Some? ==>
              (ReGetGroupInt(r, group, default).Ok? <==> PyInt(r[group].value).Some?)
  {
    if group in r && r[group] == Some(IntToString(n)) {
      PyIntOfIntToString(n, "");
      assert IntToString(n) + "" == IntToString(n);
    }
    if group in r && r[group].Some? && r[group].value != [] && AllDigits(r[group].value) {
      DigitsStrip(r[group].value);
    }
  }

  /** A non-empty digit string is its own `strip()` and starts with no sign. */
  lemma DigitsStrip(s: string)
    requires s != [] && AllDigits(s)
    ensures PyInt(s) == Some(DigitsValue(s) as int)
  {
    assert IsDigit(s[0]) && IsDigit(s[|s| - 1]);
    StripWord(s, "");
    assert s + "" == s;
  }

  // ---- dates ----------------------------------------------------------------

  datatype DateTime = DateTime(year: int, month: int, day: int, hour: int, minute: int, second: int)

  predicate IsLeap(y: int)
  {
    y % 4 == 0 && (y % 100 != 0 || y % 400 == 0)
  }

  function DaysInMonth(y: int, m: int): int
    requires 1 <= m <= 12
  {
    if m == 2 then (if IsLeap(y) then 29 else 28)
    else if m == 4 || m == 6 || m == 9 || m == 11 then 30
    else 31
  }

  /** The arguments `datetime(...)` accepts without raising `ValueError`. */
  predicate ValidDateTime(d: DateTime)
  {
    && 1 <= d.year <= 9999
    && 1 <= d.month <= 12
    && 1 <= d.day <= DaysInMonth(d.year, d.month)
    && 0 <= d.hour <= 23
    && 0 <= d.minute <= 59
    && 0 <= d.second <= 59
  }

  /** `int(year / 100) * 100`: `int` truncates toward zero. */
  function Century(year: int): int
  {
    if year >= 0 then (year / 100) * 100 else -((-year) / 100) * 100
  }

  /** `if year < 100: year += cur_century`. */
  function CompleteYear(raw: int, nowYear: int): int
  {
    if raw < 100 then raw + Century(nowYear) else raw
  }

  /** The year of the snapshot: the `year` group, or `now.year`, completed with the century. */
  function GuessYear(r: Groups, now: DateTime): Result<int, FixError>
  {
    match ReGetGroupInt(r, "year", now.year)
    case Err(e) => Err(e)
    case Ok(y) => Ok(CompleteYear(y, now.year))
  }

  /**
   * A year below 100 gets the current century added, so a two-digit year
   * lands in the current century with its last two digits kept; any other
   * year is kept, and so is `now.year` itself.
   */
  lemma CompleteYearSpec(raw: int, nowYear: int)
    requires nowYear >= 1
    ensures var c := Century(nowYear);
            && c % 100 == 0 && c <= nowYear < c + 100
            && (0 <= raw < 100 ==> c <= CompleteYear(raw, nowYear) < c + 100 && CompleteYear(raw, nowYear) % 100 == raw)
            && (raw >= 100 ==> CompleteYear(raw, nowYear) == raw)
            && CompleteYear(nowYear, nowYear) == nowYear
  {
    var q := nowYear / 100;
    assert Century(nowYear) == q * 100;
    assert (raw + q * 100) % 100 == raw % 100;
  }

  /** Without a `year` group the year is `now.year`. */
  lemma GuessYearDefault(r: Groups, now: DateTime)
    requires "year" !in r && now.year >= 1
    ensures GuessYear(r, now) == Ok(now.year)
  {
    CompleteYearSpec(now.year, now.year);
  }

  /** The fields of the new timestamp, each from its group or from `now`, in the order the code reads them. */
  function DateFields(r: Groups, now: DateTime, year: int): Result<DateTime, FixError>
  {
    match ReGetGroupInt(r, "month", now.month)
    case Err(e) => Err(e)
    case Ok(month) =>
      match ReGetGroupInt(r, "day", now.day)
      case Err(e) => Err(e)
      case Ok(day) =>
        match ReGetGroupInt(r, "hour", now.hour)
        case Err(e) => Err(e)
        case Ok(hour) =>
          match ReGetGroupInt(r, "minute", now.minute)
          case Err(e) => Err(e)
          case Ok(minute) =>
            match ReGetGroupInt(r, "second", now.second)
            case Err(e) => Err(e)
            case Ok(second) => Ok(DateTime(year, month, day, hour, minute, second))
  }

  // ---- the snapshot type ------------------------------------------------------

  /** `r.group('type')`. */
  function TypeGroup(r: Groups): Result<Option<string>, FixError>
  {
    if "type" in r then Ok(r["type"]) else Err(NoTypeGroup)
  }

  /** The type after the map and the fallback, lines 113-121; `None` when the snapshot is skipped. */
  function ResolveType(raw: Option<string>, typeMap: Option<map<string, string>>, fallback: Option<string>)
    : Option<string>
  {
    var mapped := if MapTruthy(typeMap) && raw.Some? && raw.value in typeMap.value then Some(typeMap.value[raw.value])
                  else raw;
    var t := if !Truthy(mapped) && Truthy(fallback) then fallback else mapped;
    if Truthy(t) then t else None
  }

  /**
   * A type the (non-empty) map knows is replaced by its image, any other
   * kept; the fallback applies exactly when that leaves no type, and the
   * snapshot is skipped exactly when there is still none.
   */
  lemma ResolveTypeSpec(raw: Option<string>, typeMap: Option<map<string, string>>, fallback: Option<string>)
    ensures var mapped := if MapTruthy(typeMap) && raw.Some? && raw.value in typeMap.value
                          then Some(typeMap.value[raw.value]) else raw;
            var t := ResolveType(raw, typeMap, fallback);
            && (Truthy(mapped) ==> t == mapped)
            && (!Truthy(mapped) ==> t == (if Truthy(fallback) then fallback else None))
            && (t.None? <==> !Truthy(mapped) && !Truthy(fallback))
            && (t.Some? ==> t.value != "")
    ensures MapTruthy(typeMap) && raw.Some? && raw.value in typeMap.value && typeMap.value[raw.value] != "" ==>
              ResolveType(raw, typeMap, fallback) == Some(typeMap.value[raw.value])
    ensures Truthy(raw) && !(MapTruthy(typeMap) && raw.value in typeMap.value) ==>
              ResolveType(raw, typeMap, fallback) == raw
  {
  }

  // ---- the new name -----------------------------------------------------------

  /** `n` written with at least `width` digits, as `%02d`-style fields of `strftime` write it. */
  function Padded(n: nat, width: nat): string
  {
    ZeroPad(NatToString(n), width)
  }

  /** `%Y-%m-%d`, the year written with four digits. */
  function DatePart(d: DateTime): string
    requires ValidDateTime(d)
  {
    Padded(d.year, 4) + "-" + Padded(d.month, 2) + "-" + Padded(d.day, 2)
  }

  /** `%H:%M:%S`. */
  function TimePart(d: DateTime): string
    requires ValidDateTime(d)
  {
    Padded(d.hour, 2) + ":" + Padded(d.minute, 2) + ":" + Padded(d.second, 2)
  }

  /** `strftime('%Y-%m-%d_%H:%M:%S')`. */
  function Stamp(d: DateTime): string
    requires ValidDateTime(d)
  {
    DatePart(d) + "_" + TimePart(d)
  }

  /** `'pyznap_' + stamp + '_' + snaptype`. */
  function PyznapName(d: DateTime, snapType: string): string
    requires ValidDateTime(d)
  {
    "pyznap_" + Stamp(d) + "_" + snapType
  }

  /** The new name of one snapshot: `None` when it does not match or has no type, else the pyznap name. */
  function NewName(snapName: string, pattern: string, typeMap: Option<map<string, string>>, fallback: Option<string>,
                   matcher: (string, string) -> Option<Groups>, now: DateTime): Result<Option<string>, FixError>
  {
    match matcher(pattern, snapName)
    case None => Ok(None)
    case Some(r) =>
      match GuessYear(r, now)
      case Err(e) => Err(e)
      case Ok(year) =>
        match TypeGroup(r)
        case Err(e) => Err(e)
        case Ok(raw) =>
          match ResolveType(raw, typeMap, fallback)
          case None => Ok(None)
          case Some(t) =>
            match DateFields(r, now, year)
            case Err(e) => Err(e)
            case Ok(d) => if ValidDateTime(d) then Ok(Some(PyznapName(d, t))) else Err(InvalidDate)
  }

  /** A padded field has exactly its width, consists of digits and spells the number. */
  lemma PaddedField(n: nat, width: nat)
    requires width == 2 || width == 4
    requires width == 2 ==> n < 100
    requires width == 4 ==> n < 10000
    ensures |Padded(n, width)| == width && AllDigits(Padded(n, width)) && DigitsValue(Padded(n, width)) == n
  {
    NatToStringLength(n);
    ZeroPadValue(NatToString(n), width);
    NatToStringValue(n);
  }

  /** Reads `a<sep>b<sep>c` with fields of widths `wa`, 2 and 2 back into three numbers. */
  function ParseTriple(s: string, wa: nat, sep: char): Option<(nat, nat, nat)>
  {
    if |s| != wa + 6 || s[wa] != sep || s[wa + 3] != sep then None
    else if !(AllDigits(s[..wa]) && AllDigits(s[wa + 1..wa + 3]) && AllDigits(s[wa + 4..])) then None
    else Some((DigitsValue(s[..wa]), DigitsValue(s[wa + 1..wa + 3]), DigitsValue(s[wa + 4..])))
  }

  lemma ParseTripleOf(a: string, b: string, c: string, sep: char)
    requires AllDigits(a) && AllDigits(b) && AllDigits(c) && |b| == 2 && |c| == 2
    ensures ParseTriple(a + [sep] + b + [sep] + c, |a|, sep) == Some((DigitsValue(a), DigitsValue(b), DigitsValue(c)))
  {
    TripleSlices(a, b, c, sep);
  }

  /** Where the three fields and the two separators of a joined triple sit. */
  lemma TripleSlices(a: string, b: string, c: string, sep: char)
    requires |b| == 2 && |c| == 2
    ensures var s := a + [sep] + b + [sep] + c;
            |s| == |a| + 6 && s[|a|] == sep && s[|a| + 3] == sep &&
            s[..|a|] == a && s[|a| + 1..|a| + 3] == b && s[|a| + 4..] == c
  {
    var s := a + [sep] + b + [sep] + c;
    var r := [sep] + b + [sep] + c;
    assert s == a + r;
    assert s[|a|..] == r;
    assert r[1..3] == b;
    assert r[4..] == c;
  }

  /** Reads a pyznap name back into its timestamp and type. */
  function ParsePyznapName(s: string): Option<(DateTime, string)>
  {
    if |s| < 27 || s[..7] != "pyznap_" || s[17] != '_' || s[26] != '_' then None
    else
      match (ParseTriple(s[7..17], 4, '-'), ParseTriple(s[18..26], 2, ':'))
      case (Some((y, mo, dd)), Some((h, mi, se))) => Some((DateTime(y, mo, dd, h, mi, se), s[27..]))
      case _ => None
  }

  /** The parts of the stamp, each its own fixed width. */
  lemma StampParts(d: DateTime)
    requires ValidDateTime(d)
    ensures |DatePart(d)| == 10 && |TimePart(d)| == 8
    ensures ParseTriple(DatePart(d), 4, '-') == Some((d.year as nat, d.month as nat, d.day as nat))
    ensures ParseTriple(TimePart(d), 2, ':') == Some((d.hour as nat, d.minute as nat, d.second as nat))
  {
    PaddedField(d.year, 4);
    PaddedField(d.month, 2);
    PaddedField(d.day, 2);
    PaddedField(d.hour, 2);
    PaddedField(d.minute, 2);
    PaddedField(d.second, 2);
    ParseTripleOf(Padded(d.year, 4), Padded(d.month, 2), Padded(d.day, 2), '-');
    ParseTripleOf(Padded(d.hour, 2), Padded(d.minute, 2), Padded(d.second, 2), ':');
  }

  /** The new name keeps the whole timestamp and the type: reading it back gives both. */
  lemma PyznapNameRoundTrip(d: DateTime, snapType: string)
    requires ValidDateTime(d)
    ensures ParsePyznapName(PyznapName(d, snapType)) == Some((d, snapType))
  {
    StampParts(d);
    var date, time := DatePart(d), TimePart(d);
    var s := PyznapName(d, snapType);
    assert s == "pyznap_" + date + "_" + time + "_" + snapType;
    assert s[..7] == "pyznap_";
    assert s[7..17] == date;
    assert s[18..26] == time;
    assert s[27..] == snapType;
  }

  /** `str.split` finds no `c` in text without one. */
  lemma {:induction false} UntilCharAbsent(s: string, c: char)
    requires c !in s
    ensures UntilChar(s, c) == s
    decreases |s|
  {
    if s != [] {
      assert c !in s[1..];
      UntilCharAbsent(s[1..], c);
    }
  }

  lemma {:induction false} IndexOfJoin(p: string, c: char, t: string)
    requires c !in p
    ensures c in p + [c] + t && IndexOf(p + [c] + t, c) == |p|
    decreases |p|
  {
    assert (p + [c] + t)[|p|] == c;
    if p != [] {
      assert (p + [c] + t)[1..] == p[1..] + [c] + t;
      IndexOfJoin(p[1..], c, t);
    }
  }

  /** A digit string holds no `@`. */
  lemma DigitsNoAt(s: string)
    requires AllDigits(s)
    ensures '@' !in s
  {
    assert forall i :: 0 <= i < |s| ==> s[i] != '@' by {
      forall i | 0 <= i < |s| ensures s[i] != '@' {
        assert IsDigit(s[i]);
      }
    }
  }

  /** The stamp holds no `@`. */
  lemma StampNoAt(d: DateTime)
    requires ValidDateTime(d)
    ensures '@' !in Stamp(d)
  {
    PaddedField(d.year, 4);
    PaddedField(d.month, 2);
    PaddedField(d.day, 2);
    PaddedField(d.hour, 2);
    PaddedField(d.minute, 2);
    PaddedField(d.second, 2);
    DigitsNoAt(Padded(d.year, 4));
    DigitsNoAt(Padded(d.month, 2));
    DigitsNoAt(Padded(d.day, 2));
    DigitsNoAt(Padded(d.hour, 2));
    DigitsNoAt(Padded(d.minute, 2));
    DigitsNoAt(Padded(d.second, 2));
  }

  /** The snapshot part of `fs@n` is `n` when neither holds an `@`. */
  lemma SnapPartOfJoin(fs: string, n: string)
    requires '@' !in fs && '@' !in n
    ensures Snapshots.IsSnapshotName(fs + "@" + n) && Snapshots.SnapPart(fs + "@" + n) == n
  {
    var name := fs + "@" + n;
    assert name == fs + ['@'] + n;
    IndexOfJoin(fs, '@', n);
    assert name[|fs| + 1..] == n;
    UntilCharAbsent(n, '@');
  }

  /** The type of `fs@pyznap_<stamp>_<type>` is the type, when that holds no `_`. */
  lemma TypeOfRenamed(fs: string, d: DateTime, snapType: string)
    requires ValidDateTime(d) && '_' !in snapType
    ensures Snapshots.TypeOf(fs + "@" + PyznapName(d, snapType)) == snapType
  {
    var head := fs + "@" + "pyznap_" + Stamp(d);
    assert fs + "@" + PyznapName(d, snapType) == head + ['_'] + snapType;
    LastFieldOfJoin(head, '_', snapType);
  }

  /**
   * The renamed snapshot `fsname@new_snapname` is one clean and status
   * manage: its snapshot part starts with `pyznap`, and its type, the text
   * after the last `_`, is the resolved type, when the dataset name holds no
   * `@` and the type neither `@` nor `_`.
   */
  lemma RenamedIsManaged(fs: string, d: DateTime, snapType: string)
    requires ValidDateTime(d)
    requires '@' !in fs && '@' !in snapType && '_' !in snapType
    ensures var name := fs + "@" + PyznapName(d, snapType);
            && Snapshots.IsSnapshotName(name)
            && StartsWith(Snapshots.SnapPart(name), "pyznap")
            && Snapshots.HasAnyPrefix(Snapshots.SnapPart(name), Clean.CleanPrefixes)
            && Snapshots.TypeOf(name) == snapType
  {
    var n := PyznapName(d, snapType);
    assert '@' !in n by {
      StampNoAt(d);
      assert n == "pyznap_" + Stamp(d) + "_" + snapType;
    }
    SnapPartOfJoin(fs, n);
    assert n[..6] == "pyznap";
    assert StartsWith(n, Clean.CleanPrefixes[0]);
    TypeOfRenamed(fs, d, snapType);
  }

  /** A name is only given to a snapshot whose name matches the pattern and that has a type. */
  lemma NewNameMatched(snapName: string, pattern: string, typeMap: Option<map<string, string>>,
                       fallback: Option<string>, matcher: (string, string) -> Option<Groups>, now: DateTime, n: string)
    requires NewName(snapName, pattern, typeMap, fallback, matcher, now) == Ok(Some(n))
    ensures var m := matcher(pattern, snapName);
            && m.Some? && "type" in m.value
            && exists d: DateTime, t: string ::
                 ValidDateTime(d) && ResolveType(m.value["type"], typeMap, fallback) == Some(t) && n == PyznapName(d, t)
  {
    var r := matcher(pattern, snapName).value;
    var year := GuessYear(r, now).value;
    var t := ResolveType(r["type"], typeMap, fallback).value;
    var d := DateFields(r, now, year).value;
    assert ValidDateTime(d) && n == PyznapName(d, t);
  }

  /** With no date groups at all, the timestamp is `now`. */
  lemma NewNameFromNow(snapName: string, pattern: string, typeMap: Option<map<string, string>>,
                       fallback: Option<string>, matcher: (string, string) -> Option<Groups>, now: DateTime, t: string)
    requires ValidDateTime(now)
    requires var m := matcher(pattern, snapName);
             && m.Some? && "type" in m.value
             && ResolveType(m.value["type"], typeMap, fallback) == Some(t)
             && forall g :: g in m.value ==> g == "type"
    ensures NewName(snapName, pattern, typeMap, fallback, matcher, now) == Ok(Some(PyznapName(now, t)))
  {
    var r := matcher(pattern, snapName).value;
    assert "year" !in r && "month" !in r && "day" !in r && "hour" !in r && "minute" !in r && "second" !in r;
    GuessYearDefault(r, now);
  }

  // ---- fix_snapshots ------------------------------------------------------------

  /** A snapshot as `filesystem.snapshots()` lists it: `snapshot.fsname()` and `snapshot.snapname()`. */
  datatype Snap = Snap(fs: string, name: string)

  /** `snapshot.rename(newname)`. */
  datatype Rename = Rename(snapshot: Snap, newName: string)

  /** What happens to one snapshot: renamed to a new snapshot name, skipped, or an exception. */
  type Outcome = Result<Option<string>, FixError>

  /** The renames issued so far, and the exception that ended the run, if any. */
  datatype FixRun = FixRun(renames: seq<Rename>, failed: Option<FixError>)

  /** One iteration of the innermost loop. */
  function Visit(run: FixRun, s: Snap, outcome: Outcome): FixRun
  {
    match outcome
    case Err(e) => FixRun(run.renames, Some(e))
    case Ok(None) => run
    case Ok(Some(n)) => FixRun(run.renames + [Rename(s, s.fs + "@" + n)], None)
  }

  /** The snapshots in order until the first exception, each with the outcome `name` gives it. */
  function RenameRun(snaps: seq<Snap>, name: Snap -> Outcome): FixRun
  {
    if snaps == [] then FixRun([], None)
    else
      var r := RenameRun(snaps[..|snaps| - 1], name);
      if r.failed.Some? then r else Visit(r, snaps[|snaps| - 1], name(snaps[|snaps| - 1]))
  }

  lemma RenameRunSnoc(p: seq<Snap>, s: Snap, name: Snap -> Outcome)
    requires RenameRun(p, name).failed.None?
    ensures RenameRun(p + [s], name) == Visit(RenameRun(p, name), s, name(s))
  {
    assert (p + [s])[..|p|] == p;
  }

  /** After an exception nothing more happens. */
  lemma {:induction false} RenameRunStops(p: seq<Snap>, q: seq<Snap>, name: Snap -> Outcome)
    requires RenameRun(p, name).failed.Some?
    ensures RenameRun(p + q, name) == RenameRun(p, name)
    decreases |q|
  {
    if q == [] {
      assert p + q == p;
    } else {
      var a := p + q;
      assert a[..|a| - 1] == p + q[..|q| - 1];
      RenameRunStops(p, q[..|q| - 1], name);
    }
  }

  lemma RenameRunPrefixStops(p: seq<Snap>, whole: seq<Snap>, name: Snap -> Outcome)
    requires p <= whole && RenameRun(p, name).failed.Some?
    ensures RenameRun(whole, name) == RenameRun(p, name)
  {
    assert p + whole[|p|..] == whole;
    RenameRunStops(p, whole[|p|..], name);
  }

  /** Every rename is of a listed snapshot that `name` gives a new name, to `fsname@new_snapname`. */
  lemma {:induction false} RenameRunSources(snaps: seq<Snap>, name: Snap -> Outcome, k: nat)
    requires k < |RenameRun(snaps, name).renames|
    ensures var x := RenameRun(snaps, name).renames[k].snapshot;
            && x in snaps && name(x).Ok? && name(x).value.Some?
            && RenameRun(snaps, name).renames[k].newName == x.fs + "@" + name(x).value.value
    decreases |snaps|
  {
    var init, last := snaps[..|snaps| - 1], snaps[|snaps| - 1];
    assert snaps == init + [last];
    var r := RenameRun(init, name);
    if k < |r.renames| {
      RenameRunSources(init, name, k);
      assert RenameRun(snaps, name).renames[k] == r.renames[k];
    }
  }

  /** A run without exception renames every listed snapshot that `name` gives a new name. */
  lemma {:induction false} RenameRunComplete(snaps: seq<Snap>, name: Snap -> Outcome, x: Snap)
    requires RenameRun(snaps, name).failed.None?
    requires x in snaps && name(x).Ok? && name(x).value.Some?
    ensures Rename(x, x.fs + "@" + name(x).value.value) in RenameRun(snaps, name).renames
    decreases |snaps|
  {
    var init, last := snaps[..|snaps| - 1], snaps[|snaps| - 1];
    assert snaps == init + [last];
    if x != last {
      assert x in init;
      RenameRunComplete(init, name, x);
    }
  }

  /** The resolved pattern and type map, the fallback type, the regular expression engine and the clock. */
  datatype Renamer = Renamer(pattern: string, typeMap: Option<map<string, string>>, fallback: Option<string>,
                             matcher: (string, string) -> Option<Groups>, now: DateTime)

  /** The outcome of `NewName` for each snapshot. */
  function NameBy(f: Renamer): Snap -> Outcome
  {
    (s: Snap) => NewName(s.name, f.pattern, f.typeMap, f.fallback, f.matcher, f.now)
  }

  /** `fstree`: the dataset and, when recursing, its descendants; nothing when `zfs.open` fails. */
  function Tree(fsname: string, recurse: bool, opens: string -> bool, find: string -> seq<string>): seq<string>
  {
    if !opens(fsname) then [] else if recurse then find(fsname) else [fsname]
  }

  /** The snapshot listings of the datasets, one per dataset. */
  function DatasetLists(datasets: seq<string>, listing: string -> seq<Snap>): (r: seq<seq<Snap>>)
    ensures |r| == |datasets|
    ensures forall i :: 0 <= i < |datasets| ==> r[i] == listing(datasets[i])
  {
    seq(|datasets|, i requires 0 <= i < |datasets| => listing(datasets[i]))
  }

  /** The snapshots of the datasets in order. */
  function DatasetSnapshots(datasets: seq<string>, listing: string -> seq<Snap>): seq<Snap>
  {
    Flatten(DatasetLists(datasets, listing))
  }

  /** The snapshots of each specified filesystem's tree, one per filesystem. */
  function TreeLists(filesystems: seq<string>, recurse: bool, opens: string -> bool, find: string -> seq<string>,
                     listing: string -> seq<Snap>): (r: seq<seq<Snap>>)
    ensures |r| == |filesystems|
    ensures forall i :: 0 <= i < |filesystems| ==>
              r[i] == DatasetSnapshots(Tree(filesystems[i], recurse, opens, find), listing)
  {
    seq(|filesystems|, i requires 0 <= i < |filesystems| =>
          DatasetSnapshots(Tree(filesystems[i], recurse, opens, find), listing))
  }

  /** The snapshots the loops visit, in order. */
  function Visited(filesystems: seq<string>, recurse: bool, opens: string -> bool, find: string -> seq<string>,
                   listing: string -> seq<Snap>): seq<Snap>
  {
    Flatten(TreeLists(filesystems, recurse, opens, find, listing))
  }

  /** What `fix_snapshots` does, as a function of its inputs. */
  function FixSpec(filesystems: seq<string>, format: Option<string>, fallback: Option<string>,
                   typeMap: Option<map<string, string>>, recurse: bool, opens: string -> bool,
                   find: string -> seq<string>, listing: string -> seq<Snap>,
                   matcher: (string, string) -> Option<Groups>, now: DateTime): FixRun
  {
    match ResolveFormat(format, typeMap)
    case Err(e) => FixRun([], Some(e))
    case Ok((pattern, tm)) =>
      RenameRun(Visited(filesystems, recurse, opens, find, listing), NameBy(Renamer(pattern, tm, fallback, matcher, now)))
  }

  /**
   * Only snapshots whose names match the resolved pattern are renamed, each
   * to `fsname@pyznap_<stamp>_<type>` with a valid timestamp and its resolved
   * type.
   */
  lemma FixRenamesMatching(filesystems: seq<string>, format: Option<string>, fallback: Option<string>,
                           typeMap: Option<map<string, string>>, recurse: bool, opens: string -> bool,
                           find: string -> seq<string>, listing: string -> seq<Snap>,
                           matcher: (string, string) -> Option<Groups>, now: DateTime, k: nat)
    requires var run := FixSpec(filesystems, format, fallback, typeMap, recurse, opens, find, listing, matcher, now);
             k < |run.renames|
    ensures var run := FixSpec(filesystems, format, fallback, typeMap, recurse, opens, find, listing, matcher, now);
            var x := run.renames[k].snapshot;
            && ResolveFormat(format, typeMap).Ok?
            && x in Visited(filesystems, recurse, opens, find, listing)
            && matcher(ResolveFormat(format, typeMap).value.0, x.name).Some?
            && exists d: DateTime, t: string ::
                 ValidDateTime(d) && t != "" && run.renames[k].newName == x.fs + "@" + PyznapName(d, t)
  {
    var run := FixSpec(filesystems, format, fallback, typeMap, recurse, opens, find, listing, matcher, now);
    var (pattern, tm) := ResolveFormat(format, typeMap).value;
    var name := NameBy(Renamer(pattern, tm, fallback, matcher, now));
    var snaps := Visited(filesystems, recurse, opens, find, listing);
    RenameRunSources(snaps, name, k);
    var x := run.renames[k].snapshot;
    var n := name(x).value.value;
    NewNameMatched(x.name, pattern, tm, fallback, matcher, now, n);
    var m := matcher(pattern, x.name).value;
    var d: DateTime, t: string :| ValidDateTime(d) && ResolveType(m["type"], tm, fallback) == Some(t) &&
                                  n == PyznapName(d, t);
    ResolveTypeSpec(m["type"], tm, fallback);
  }

  /** The innermost loop, over the snapshots of one dataset; `name` computes each snapshot's new name. */
  method FixDataset(snaps: seq<Snap>, name: Snap -> Outcome, ghost done: seq<Snap>, run0: FixRun) returns (run: FixRun)
    requires run0 == RenameRun(done, name) && run0.failed.None?
    ensures run == RenameRun(done + snaps, name)
  {
    run := run0;
    var k := 0;
    assert done + snaps[..0] == done;
    while k < |snaps|
      invariant 0 <= k <= |snaps|
      invariant run == RenameRun(done + snaps[..k], name) && run.failed.None?
    {
      var snapshot := snaps[k];
      ghost var before := done + snaps[..k];
      assert done + snaps[..k + 1] == before + [snapshot];
      var result := name(snapshot);
      assert RenameRun(before + [snapshot], name) == Visit(run, snapshot, result) by {
        RenameRunSnoc(before, snapshot, name);
      }
      if result.Err? {
        run := FixRun(run.renames, Some(result.error));
        assert done + snaps[..k + 1] <= done + snaps;
        RenameRunPrefixStops(done + snaps[..k + 1], done + snaps, name);
        return;
      }
      if result.value.Some? {
        run := FixRun(run.renames + [Rename(snapshot, snapshot.fs + "@" + result.value.value)], None);
      }
      k := k + 1;
    }
    assert snaps[..k] == snaps;
  }

  /** The loop over the datasets of one specified filesystem. */
  method FixFilesystem(datasets: seq<string>, listing: string -> seq<Snap>, name: Snap -> Outcome, ghost done: seq<Snap>,
                       run0: FixRun) returns (run: FixRun)
    requires run0 == RenameRun(done, name) && run0.failed.None?
    ensures run == RenameRun(done + DatasetSnapshots(datasets, listing), name)
  {
    ghost var lists := DatasetLists(datasets, listing);
    run := run0;
    var j := 0;
    assert done + Flatten(lists[..0]) == done by {
      assert lists[..0] == [];
    }
    while j < |datasets|
      invariant 0 <= j <= |datasets|
      invariant run == RenameRun(done + Flatten(lists[..j]), name)
    {
      ghost var before := done + Flatten(lists[..j]);
      if run.failed.Some? {
        assert before <= done + Flatten(lists) by {
          FlattenPrefix(lists, j);
        }
        RenameRunPrefixStops(before, done + Flatten(lists), name);
        return;
      }
      assert before + listing(datasets[j]) == done + Flatten(lists[..j + 1]) by {
        FlattenStep(lists, j);
      }
      run := FixDataset(listing(datasets[j]), name, before, run);
      j := j + 1;
    }
    assert lists[..j] == lists;
  }

  /** The loop over the specified filesystems: each one's tree, when it opens. */
  method FixTrees(filesystems: seq<string>, recurse: bool, opens: string -> bool, find: string -> seq<string>,
                  listing: string -> seq<Snap>, name: Snap -> Outcome) returns (run: FixRun)
    ensures run == RenameRun(Visited(filesystems, recurse, opens, find, listing), name)
  {
    ghost var lists := TreeLists(filesystems, recurse, opens, find, listing);
    run := FixRun([], None);
    var i := 0;
    assert lists[..0] == [];
    while i < |filesystems|
      invariant 0 <= i <= |filesystems|
      invariant run == RenameRun(Flatten(lists[..i]), name)
    {
      ghost var before := Flatten(lists[..i]);
      if run.failed.Some? {
        assert before <= Flatten(lists) by {
          FlattenPrefix(lists, i);
        }
        RenameRunPrefixStops(before, Flatten(lists), name);
        return;
      }
      var fsname := filesystems[i];
      var fstree: seq<string>;
      if !opens(fsname) {
        fstree := [];
      } else if recurse {
        fstree := find(fsname);
      } else {
        fstree := [fsname];
      }
      assert before + DatasetSnapshots(fstree, listing) == Flatten(lists[..i + 1]) by {
        FlattenStep(lists, i);
      }
      run := FixFilesystem(fstree, listing, name, before, run);
      i := i + 1;
    }
    assert lists[..i] == lists;
  }

  /**
   * `fix_snapshots(filesystems, format, type, type_map, recurse)`: resolve
   * the format, then rename every matching snapshot of every filesystem that
   * opens, and of its descendants when recursing, until an exception.
   */
  method FixSnapshots(filesystems: seq<string>, format: Option<string>, fallback: Option<string>,
                      typeMap: Option<map<string, string>>, recurse: bool, opens: string -> bool,
                      find: string -> seq<string>, listing: string -> seq<Snap>,
                      matcher: (string, string) -> Option<Groups>, now: DateTime)
    returns (run: FixRun)
    ensures run == FixSpec(filesystems, format, fallback, typeMap, recurse, opens, find, listing, matcher, now)
  {
    var resolved := ResolveFormat(format, typeMap);
    if resolved.Err? {
      return FixRun([], Some(resolved.error));
    }
    var name := NameBy(Renamer(resolved.value.0, resolved.value.1, fallback, matcher, now));
    run := FixTrees(filesystems, recurse, opens, find, listing, name);
  }
}
