/**
 The runtime supervisor's descriptor retention: sort the descriptors to keep, then close the
 ranges between them.
 */
module Descriptors {
  const UINT_MAX: nat := 4294967295
  const INT_MAX: int := 2147483647

  /** What the sequence of `close_range` calls has closed. */
  datatype Range = Range(first: nat, last: nat) {
    predicate Covers(descriptor: nat) { first <= descriptor <= last }
  }

  ghost predicate Closed(ranges: seq<Range>, descriptor: nat) {
    exists i :: 0 <= i < |ranges| && ranges[i].Covers(descriptor)
  }

  predicate Sorted(s: seq<int>) {
    forall i, j | 0 <= i < j < |s| :: s[i] <= s[j]
  }

  method Exchange(keep: array<int>, i: nat, j: nat)
    requires i < j < keep.Length
    modifies keep
    ensures keep[i] == old(keep[j]) && keep[j] == old(keep[i])
    ensures forall k | 0 <= k < keep.Length && k != i && k != j :: keep[k] == old(keep[k])
    ensures multiset(keep[..]) == multiset(old(keep[..]))
  {
    keep[i], keep[j] := keep[j], keep[i];
  }

  /** The first `i` elements are sorted and none of the others is smaller. */
  predicate SortedUpTo(keep: array<int>, i: nat)
    requires i <= keep.Length
    reads keep
  {
    forall a, b | 0 <= a < i && a < b < keep.Length :: keep[a] <= keep[b]
  }

  /** One pass: the smallest of the remaining elements comes to place `i`. */
  method Pass(keep: array<int>, i: nat)
    requires i < keep.Length && SortedUpTo(keep, i)
    modifies keep
    ensures SortedUpTo(keep, i + 1) && multiset(keep[..]) == multiset(old(keep[..]))
  {
    for j := i + 1 to keep.Length
      invariant multiset(keep[..]) == multiset(old(keep[..]))
      invariant SortedUpTo(keep, i)
      invariant forall b | i <= b < j :: keep[i] <= keep[b]
    {
      if keep[j] < keep[i] { Exchange(keep, i, j); }
    }
  }

  /** The exchange sort of the source, in place. */
  method SortDescriptors(keep: array<int>)
    modifies keep
    ensures Sorted(keep[..]) && multiset(keep[..]) == multiset(old(keep[..]))
  {
    for i := 0 to keep.Length
      invariant multiset(keep[..]) == multiset(old(keep[..]))
      invariant SortedUpTo(keep, i)
    {
      Pass(keep, i);
    }
  }

  /** What has been closed once everything below `next` is settled. */
  ghost predicate Settled(ranges: seq<Range>, keep: seq<int>, next: nat) {
    forall d: nat :: Closed(ranges, d) <==> 3 <= d < next && d !in keep
  }

  lemma ClosedSnoc(ranges: seq<Range>, range: Range, d: nat)
    ensures Closed(ranges + [range], d) <==> Closed(ranges, d) || range.Covers(d)
  {
    if Closed(ranges, d) {
      var i :| 0 <= i < |ranges| && ranges[i].Covers(d);
      assert (ranges + [range])[i].Covers(d);
    }
    if range.Covers(d) { assert (ranges + [range])[|ranges|].Covers(d); }
  }

  /** Closing up to the next kept descriptor, which is skipped, settles everything up to it. */
  lemma GapIsClosed(ranges: seq<Range>, range: Range, keep: seq<int>, next: nat, kept: nat)
    requires Settled(ranges, keep, next) && 3 <= next < kept && range == Range(next, kept - 1)
    requires kept in keep && forall d | next <= d < kept :: d !in keep
    ensures Settled(ranges + [range], keep, kept + 1)
  {
    forall d: nat
      ensures Closed(ranges + [range], d) <==> 3 <= d < kept + 1 && d !in keep
    {
      ClosedSnoc(ranges, range, d);
    }
  }

  lemma KeptIsSkipped(ranges: seq<Range>, keep: seq<int>, next: nat)
    requires Settled(ranges, keep, next) && next in keep
    ensures Settled(ranges, keep, next + 1)
  {
  }

  /**
   With every call succeeding, exactly the descriptors from 3 to UINT_MAX that are not in the
   array are closed, whatever its order, duplicates and negative entries; a failing call leaves
   only such descriptors closed.
   */
  method RetainDescriptors(keep: array<int>, works: nat -> bool) returns (ok: bool, ranges: seq<Range>)
    requires forall i | 0 <= i < keep.Length :: keep[i] <= 2147483647
    modifies keep
    ensures ok ==> forall d: nat :: Closed(ranges, d) <==> 3 <= d <= 4294967295 && d !in old(keep[..])
    ensures forall d: nat :: Closed(ranges, d) ==> 3 <= d <= 4294967295 && d !in old(keep[..])
    ensures (forall n :: works(n)) ==> ok
  {
    SortDescriptors(keep);
    ghost var kept := keep[..];
    SameElements(old(keep[..]), kept);
    var next := 3;
    ranges := [];
    for i := 0 to keep.Length
      invariant keep[..] == kept && 3 <= next <= INT_MAX + 1
      invariant Settled(ranges, kept, next)
      invariant forall j | 0 <= j < i :: keep[j] < next
    {
      assert keep[i] == kept[i];
      if keep[i] < 3 || keep[i] < next { continue; }
      if keep[i] > next {
        if !works(|ranges|) { return false, ranges; }
        GapIsClosed(ranges, Range(next, keep[i] - 1), kept, next, keep[i]);
        ranges := ranges + [Range(next, keep[i] - 1)];
      } else {
        KeptIsSkipped(ranges, kept, next);
      }
      next := keep[i] + 1;
    }
    if !works(|ranges|) { return false, ranges; }
    ghost var before := ranges;
    ranges := ranges + [Range(next, UINT_MAX)];
    forall d: nat
      ensures Closed(ranges, d) <==> 3 <= d <= UINT_MAX && d !in kept
    {
      ClosedSnoc(before, Range(next, UINT_MAX), d);
    }
    ok := true;
  }

  lemma SameElements(a: seq<int>, b: seq<int>)
    requires multiset(a) == multiset(b)
    ensures forall x :: x in a <==> x in b
  {
    forall x ensures x in a <==> x in b {
      assert x in a <==> x in multiset(a);
      assert x in b <==> x in multiset(b);
    }
  }
}
