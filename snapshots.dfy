/**
 * What pyznap's clean and status commands share: reading the snapshot type
 * out of a snapshot name, and sorting a dataset's snapshots into one bucket
 * per type, newest first.  Both commands run the same categorising loop and
 * the same reversal (pyznap/clean.py:59-79, pyznap/status.py:90-110); here it
 * is written once, with the accepted name prefixes as a parameter.
 */
module Snapshots {
  import opened Text

  /** A snapshot name as ZFS lists it, `<dataset>@<snapshot>`. */
  predicate IsSnapshotName(name: string)
  {
    '@' in name
  }

  predicate AllSnapshotNames(snaps: seq<string>)
  {
    forall i :: 0 <= i < |snaps| ==> IsSnapshotName(snaps[i])
  }

  /** `name.split('@')[1]`: the snapshot part of the name. */
  function SnapPart(name: string): string
    requires IsSnapshotName(name)
  {
    SecondField(name, '@')
  }

  /** `name.split('_')[-1]`: the type a pyznap snapshot name ends with. */
  function TypeOf(name: string): string
  {
    LastField(name, '_')
  }

  /** `s.startswith(tuple(prefixes))`. */
  predicate HasAnyPrefix(s: string, prefixes: seq<string>)
  {
    exists i :: 0 <= i < |prefixes| && StartsWith(s, prefixes[i])
  }

  /** The snapshot is one the loop appends to the bucket of type `t`. */
  predicate Selected(name: string, prefixes: seq<string>, t: string)
    requires IsSnapshotName(name)
  {
    HasAnyPrefix(SnapPart(name), prefixes) && TypeOf(name) == t
  }

  /** The bucket of type `t` in listing order (oldest first), before reversal. */
  function Bucket(snaps: seq<string>, prefixes: seq<string>, t: string): seq<string>
    requires AllSnapshotNames(snaps)
  {
    if snaps == [] then []
    else
      var last := snaps[|snaps| - 1];
      Bucket(snaps[..|snaps| - 1], prefixes, t) + (if Selected(last, prefixes, t) then [last] else [])
  }

  ghost predicate NoDuplicates<T>(s: seq<T>)
  {
    forall i, j :: 0 <= i < j < |s| ==> s[i] != s[j]
  }

  ghost predicate Distinct(types: seq<string>)
  {
    NoDuplicates(types)
  }

  /** A bucket holds exactly the listed snapshots with an accepted prefix and its type. */
  lemma {:induction false} BucketMembers(snaps: seq<string>, prefixes: seq<string>, t: string, x: string)
    requires AllSnapshotNames(snaps)
    ensures x in Bucket(snaps, prefixes, t) <==> x in snaps && Selected(x, prefixes, t)
    decreases |snaps|
  {
    if snaps != [] {
      var init := snaps[..|snaps| - 1];
      BucketMembers(init, prefixes, t, x);
      assert snaps == init + [snaps[|snaps| - 1]];
    }
  }

  /** A bucket never names a snapshot twice when the listing does not. */
  lemma {:induction false} BucketNoDuplicates(snaps: seq<string>, prefixes: seq<string>, t: string)
    requires AllSnapshotNames(snaps) && NoDuplicates(snaps)
    ensures NoDuplicates(Bucket(snaps, prefixes, t))
    decreases |snaps|
  {
    if snaps != [] {
      var init := snaps[..|snaps| - 1];
      var last := snaps[|snaps| - 1];
      BucketNoDuplicates(init, prefixes, t);
      forall k | 0 <= k < |init| ensures init[k] != last {
        assert snaps[k] != snaps[|snaps| - 1];
      }
      BucketMembers(init, prefixes, t, last);
    }
  }

  // ---- reversal -----------------------------------------------------------

  /** `list.reverse()`, as a value. */
  function Reverse<T>(s: seq<T>): (r: seq<T>)
    ensures |r| == |s|
  {
    if s == [] then [] else Reverse(s[1..]) + [s[0]]
  }

  /** The k-th element of the reversed list is the k-th from the end. */
  lemma {:induction false} ReverseAt<T>(s: seq<T>, k: nat)
    requires k < |s|
    ensures Reverse(s)[k] == s[|s| - 1 - k]
    decreases |s|
  {
    if k < |s| - 1 {
      ReverseAt(s[1..], k);
    }
  }

  /** Reversing a concatenation reverses and swaps the parts. */
  lemma {:induction false} ReverseConcat<T>(a: seq<T>, b: seq<T>)
    ensures Reverse(a + b) == Reverse(b) + Reverse(a)
  {
    var l, r := Reverse(a + b), Reverse(b) + Reverse(a);
    forall k | 0 <= k < |l| ensures l[k] == r[k] {
      ReverseAt(a + b, k);
      if k < |b| { ReverseAt(b, k); } else { ReverseAt(a, k - |b|); }
    }
  }

  /** Reversal keeps the elements and their multiplicities. */
  lemma {:induction false} ReverseMultiset<T>(s: seq<T>)
    ensures multiset(Reverse(s)) == multiset(s)
    decreases |s|
  {
    if s != [] {
      ReverseMultiset(s[1..]);
      assert s == [s[0]] + s[1..];
    }
  }

  /** Reversal keeps a list free of duplicates. */
  lemma ReverseNoDuplicates<T>(s: seq<T>)
    requires NoDuplicates(s)
    ensures NoDuplicates(Reverse(s))
  {
    var r := Reverse(s);
    forall i, j | 0 <= i < j < |r| ensures r[i] != r[j] {
      ReverseAt(s, i);
      ReverseAt(s, j);
    }
  }

  // ---- the categorising loop ----------------------------------------------

  /**
   * `snapshots = {t: [] for t in SNAPSHOT_TYPES}` followed by the loop that
   * appends each accepted snapshot to the list of its type; a snapshot whose
   * type is not a key is skipped (the `KeyError` the loop catches).
   */
  method Categorize(snaps: seq<string>, types: seq<string>, prefixes: seq<string>)
    returns (buckets: map<string, seq<string>>)
    requires AllSnapshotNames(snaps)
    ensures forall t :: t in buckets <==> t in types
    ensures forall t :: t in types ==> buckets[t] == Bucket(snaps, prefixes, t)
  {
    buckets := map t | t in types :: [];
    assert snaps[..0] == [];
    var i := 0;
    while i < |snaps|
      invariant 0 <= i <= |snaps|
      invariant forall t :: t in buckets <==> t in types
      invariant AllSnapshotNames(snaps[..i])
      invariant forall t :: t in types ==> buckets[t] == Bucket(snaps[..i], prefixes, t)
    {
      var name := snaps[i];
      ghost var before := buckets;
      if HasAnyPrefix(SnapPart(name), prefixes) {
        var t := TypeOf(name);
        if t in buckets {
          buckets := buckets[t := buckets[t] + [name]];
        }
      }
      CategorizeStep(snaps, i, prefixes, types, before, buckets);
      i := i + 1;
    }
    assert snaps[..|snaps|] == snaps;
  }

  /** The body of the categorising loop keeps every bucket equal to the bucket of the prefix read so far. */
  lemma CategorizeStep(snaps: seq<string>, i: nat, prefixes: seq<string>, types: seq<string>,
                       before: map<string, seq<string>>, after: map<string, seq<string>>)
    requires AllSnapshotNames(snaps) && i < |snaps|
    requires forall t :: t in before <==> t in types
    requires forall t :: t in types ==> before[t] == Bucket(snaps[..i], prefixes, t)
    requires var name, t := snaps[i], TypeOf(snaps[i]);
             after == if HasAnyPrefix(SnapPart(name), prefixes) && t in before then before[t := before[t] + [name]] else before
    ensures AllSnapshotNames(snaps[..i + 1])
    ensures forall t :: t in after <==> t in types
    ensures forall t :: t in types ==> after[t] == Bucket(snaps[..i + 1], prefixes, t)
  {
    BucketAppend(snaps, i, prefixes);
    var name := snaps[i];
    forall u | u in types ensures after[u] == Bucket(snaps[..i + 1], prefixes, u) {
      if u == TypeOf(name) && HasAnyPrefix(SnapPart(name), prefixes) {
        assert Selected(name, prefixes, u);
      } else {
        assert !Selected(name, prefixes, u);
      }
    }
  }

  /** One more step of the categorising loop appends the snapshot to its own bucket only. */
  lemma BucketAppend(snaps: seq<string>, i: nat, prefixes: seq<string>)
    requires AllSnapshotNames(snaps) && i < |snaps|
    ensures AllSnapshotNames(snaps[..i]) && AllSnapshotNames(snaps[..i + 1])
    ensures forall u :: Bucket(snaps[..i + 1], prefixes, u) ==
                        Bucket(snaps[..i], prefixes, u) + (if Selected(snaps[i], prefixes, u) then [snaps[i]] else [])
  {
    assert snaps[..i + 1][..i] == snaps[..i];
  }

  /** `for snaps in snapshots.values(): snaps.reverse()`: every bucket newest first. */
  method ReverseBuckets(buckets: map<string, seq<string>>, types: seq<string>)
    returns (reversed: map<string, seq<string>>)
    requires Distinct(types)
    requires forall t :: t in buckets <==> t in types
    ensures reversed.Keys == buckets.Keys
    ensures forall t :: t in types ==> reversed[t] == Reverse(buckets[t])
  {
    reversed := buckets;
    var i := 0;
    while i < |types|
      invariant 0 <= i <= |types|
      invariant reversed.Keys == buckets.Keys
      invariant forall j :: 0 <= j < i ==> reversed[types[j]] == Reverse(buckets[types[j]])
      invariant forall j :: i <= j < |types| ==> reversed[types[j]] == buckets[types[j]]
    {
      var t := types[i];
      reversed := reversed[t := Reverse(reversed[t])];
      i := i + 1;
    }
  }

  // ---- counting ------------------------------------------------------------

  /** `sum(len(s) for s in snapshots.values())`. */
  function TotalBucketed(snaps: seq<string>, prefixes: seq<string>, types: seq<string>): nat
    requires AllSnapshotNames(snaps)
  {
    if types == [] then 0
    else TotalBucketed(snaps, prefixes, types[..|types| - 1]) + |Bucket(snaps, prefixes, types[|types| - 1])|
  }

  /** How many of the types select the snapshot `x`. */
  function Hits(x: string, prefixes: seq<string>, types: seq<string>): nat
    requires IsSnapshotName(x)
  {
    if types == [] then 0
    else Hits(x, prefixes, types[..|types| - 1]) + (if Selected(x, prefixes, types[|types| - 1]) then 1 else 0)
  }

  /** With distinct types a snapshot lands in at most one bucket. */
  lemma {:induction false} HitsAtMostOne(x: string, prefixes: seq<string>, types: seq<string>)
    requires IsSnapshotName(x) && Distinct(types)
    ensures Hits(x, prefixes, types) <= (if TypeOf(x) in types then 1 else 0)
    decreases |types|
  {
    if types != [] {
      var init := types[..|types| - 1];
      var last := types[|types| - 1];
      HitsAtMostOne(x, prefixes, init);
      forall k | 0 <= k < |init| ensures init[k] != last {
        assert types[k] != types[|types| - 1];
      }
    }
  }

  /** One more listed snapshot adds its hits to the total. */
  lemma {:induction false} TotalStep(init: seq<string>, x: string, prefixes: seq<string>, types: seq<string>)
    requires AllSnapshotNames(init) && IsSnapshotName(x)
    ensures AllSnapshotNames(init + [x])
    ensures TotalBucketed(init + [x], prefixes, types) == TotalBucketed(init, prefixes, types) + Hits(x, prefixes, types)
    decreases |types|
  {
    var s := init + [x];
    assert s[..|s| - 1] == init;
    if types != [] {
      TotalStep(init, x, prefixes, types[..|types| - 1]);
    }
  }

  /** Together the buckets hold no more snapshots than the listing. */
  lemma {:induction false} TotalBucketedBound(snaps: seq<string>, prefixes: seq<string>, types: seq<string>)
    requires AllSnapshotNames(snaps) && Distinct(types)
    ensures TotalBucketed(snaps, prefixes, types) <= |snaps|
    decreases |snaps|
  {
    if snaps == [] {
      TotalOfEmpty(prefixes, types);
    } else {
      var init := snaps[..|snaps| - 1];
      var x := snaps[|snaps| - 1];
      assert snaps == init + [x];
      TotalBucketedBound(init, prefixes, types);
      TotalStep(init, x, prefixes, types);
      HitsAtMostOne(x, prefixes, types);
    }
  }

  lemma {:induction false} TotalOfEmpty(prefixes: seq<string>, types: seq<string>)
    ensures TotalBucketed([], prefixes, types) == 0
    decreases |types|
  {
    if types != [] {
      TotalOfEmpty(prefixes, types[..|types| - 1]);
    }
  }
}
