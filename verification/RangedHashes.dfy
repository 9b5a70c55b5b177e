/** Hashes of the parts of a file. */
module RangedHashes {
  import opened Ranges
  import opened ByteRangeSets

  type byte = x: nat | x < 256 witness 0

  /** The digest determines the content; there is no digest of missing data. */
  datatype Hash = Zero | Digest(content: seq<byte>)

  datatype Entry = Entry(range: ByteRange, hash: Hash)

  // ---------------------------------------------------------------------
  // Adding
  // ---------------------------------------------------------------------

  /** The order of ranges: by start, then by end. */
  predicate AtMost(a: ByteRange, b: ByteRange) {
    a.start < b.start || (a.start == b.start && a.end <= b.end)
  }

  ghost predicate InOrder(hs: seq<Entry>) {
    forall i, j | 0 <= i < j < |hs| :: AtMost(hs[i].range, hs[j].range)
  }

  /** No two entries start at the same place. */
  ghost predicate Strict(hs: seq<Entry>) {
    forall i, j | 0 <= i < j < |hs| :: hs[i].range.start < hs[j].range.start
  }

  /** Appending and then sorting, without changing the order of equal ranges. */
  function Insert(hs: seq<Entry>, e: Entry): seq<Entry> {
    if hs == [] || AtMost(hs[|hs| - 1].range, e.range) then hs + [e]
    else Insert(hs[..|hs| - 1], e) + [hs[|hs| - 1]]
  }

  lemma {:induction false} InsertedElements(hs: seq<Entry>, e: Entry)
    ensures multiset(Insert(hs, e)) == multiset(hs) + multiset{e}
  {
    if hs != [] {
      assert hs == hs[..|hs| - 1] + [hs[|hs| - 1]];
      if !AtMost(hs[|hs| - 1].range, e.range) {
        InsertedElements(hs[..|hs| - 1], e);
      }
    }
  }

  lemma InsertedMember(hs: seq<Entry>, e: Entry, x: Entry)
    ensures x in Insert(hs, e) <==> x in hs || x == e
  {
    InsertedElements(hs, e);
    assert x in Insert(hs, e) <==> x in multiset(Insert(hs, e));
    assert x in hs <==> x in multiset(hs);
  }

  lemma {:induction false} InsertedInOrder(hs: seq<Entry>, e: Entry)
    requires InOrder(hs)
    ensures InOrder(Insert(hs, e))
  {
    if hs != [] && !AtMost(hs[|hs| - 1].range, e.range) {
      var rest, last := hs[..|hs| - 1], hs[|hs| - 1];
      InsertedInOrder(rest, e);
      var r := Insert(rest, e);
      forall i | 0 <= i < |r| ensures AtMost(r[i].range, last.range) {
        InsertedMember(rest, e, r[i]);
        if r[i] in rest {
          var k :| 0 <= k < |rest| && rest[k] == r[i];
          assert hs[k] == r[i];
        }
      }
    }
  }

  lemma {:induction false} InsertedLength(hs: seq<Entry>, e: Entry)
    ensures |Insert(hs, e)| == |hs| + 1
  {
    if hs != [] && !AtMost(hs[|hs| - 1].range, e.range) {
      InsertedLength(hs[..|hs| - 1], e);
    }
  }

  lemma {:induction false} InsertedStrict(hs: seq<Entry>, e: Entry)
    requires Strict(hs) && forall x | x in hs :: x.range.start != e.range.start
    ensures Strict(Insert(hs, e))
  {
    if hs != [] {
      var rest, last := hs[..|hs| - 1], hs[|hs| - 1];
      assert last in hs && forall x | x in rest :: x in hs;
      if AtMost(last.range, e.range) {
        assert forall i | 0 <= i < |hs| :: hs[i].range.start <= last.range.start;
      } else {
        InsertedStrict(rest, e);
        var r := Insert(rest, e);
        forall i | 0 <= i < |r| ensures r[i].range.start < last.range.start {
          InsertedMember(rest, e, r[i]);
        }
      }
    }
  }

  /** Entries that start at different places have one order only. */
  lemma {:induction false} SameEntries(a: seq<Entry>, b: seq<Entry>)
    requires Strict(a) && Strict(b) && |a| == |b| && forall x :: x in a <==> x in b
    ensures a == b
  {
    if a != [] {
      var n := |a| - 1;
      assert a[n] in b && b[n] in a;
      assert a[n] == b[n];
      forall x ensures x in a[..n] <==> x in b[..n] {
        assert x in a[..n] ==> x in b && x != b[n];
        assert x in b[..n] ==> x in a && x != a[n];
      }
      SameEntries(a[..n], b[..n]);
      assert a == a[..n] + [a[n]] && b == b[..n] + [b[n]];
    }
  }

  lemma InsertBefore(hs: seq<Entry>, k: nat, e: Entry)
    requires 0 < k <= |hs| && !AtMost(hs[k - 1].range, e.range)
    ensures Insert(hs[..k], e) + hs[k..] == Insert(hs[..k - 1], e) + hs[k - 1..]
  {
    assert hs[..k][..k - 1] == hs[..k - 1] && hs[k - 1..] == [hs[k - 1]] + hs[k..];
  }

  lemma InsertHere(hs: seq<Entry>, k: nat, e: Entry)
    requires k <= |hs| && (k == 0 || AtMost(hs[k - 1].range, e.range))
    ensures Insert(hs[..k], e) + hs[k..] == hs[..k] + [e] + hs[k..]
  {
  }

  // ---------------------------------------------------------------------
  // Comparing
  // ---------------------------------------------------------------------

  /** The ranges follow each other without gap or overlap from `start` to `end`. */
  ghost predicate Chained(hs: seq<Entry>, start: nat, end: nat)
    decreases |hs|
  {
    if hs == [] then start == end
    else hs[|hs| - 1].range.end == end && Chained(hs[..|hs| - 1], start, hs[|hs| - 1].range.start)
  }

  lemma {:induction false} BrokenChain(hs: seq<Entry>, i: nat, expected: nat, end: nat)
    requires i < |hs| && Chained(hs[..i], 0, expected) && hs[i].range.start != expected
    ensures !Chained(hs, 0, end)
    decreases |hs|
  {
    if i < |hs| - 1 {
      assert hs[..|hs| - 1][..i] == hs[..i];
      BrokenChain(hs[..|hs| - 1], i, expected, hs[|hs| - 1].range.start);
    } else {
      assert hs[..|hs| - 1] == hs[..i];
      if Chained(hs, 0, end) {
        ChainedOnce(hs[..i], 0, expected, hs[i].range.start);
      }
    }
  }

  lemma ChainedOnce(hs: seq<Entry>, start: nat, end: nat, other: nat)
    requires Chained(hs, start, end) && Chained(hs, start, other)
    ensures end == other
  {
  }

  /** A hash with this range is in both. */
  ghost predicate InBoth(a: seq<Entry>, b: seq<Entry>, i: int, j: int) {
    0 <= i < |a| && 0 <= j < |b| && a[i].range == b[j].range
  }

  ghost predicate MatchIn(a: seq<Entry>, b: seq<Entry>, r: ByteRange, same: bool) {
    exists i, j :: InBoth(a, b, i, j) && a[i].range == r && (a[i].hash == b[j].hash) == same
  }

  /** What was found once `i` and `j` entries were gone through. */
  ghost predicate Compared(a: seq<Entry>, b: seq<Entry>, i: int, j: int, rs: seq<ByteRange>, same: bool) {
    forall r :: r in rs <==>
      exists p, q :: InBoth(a, b, p, q) && p < i && q < j && a[p].range == r && (a[p].hash == b[q].hash) == same
  }

  /** An aligned pair is either behind on both sides or ahead on both. */
  ghost predicate InStep(a: seq<Entry>, b: seq<Entry>, i: int, j: int) {
    forall p, q | InBoth(a, b, p, q) :: p < i <==> q < j
  }

  lemma InStepBoth(a: seq<Entry>, b: seq<Entry>, i: int, j: int)
    requires Strict(a) && Strict(b) && InStep(a, b, i, j) && InBoth(a, b, i, j)
    ensures InStep(a, b, i + 1, j + 1)
  {
    forall p, q | InBoth(a, b, p, q) ensures p < i + 1 <==> q < j + 1 {
      assert p < i <==> q < j;
    }
  }

  lemma InStepOne(a: seq<Entry>, b: seq<Entry>, i: int, j: int)
    requires Strict(a) && Strict(b) && InStep(a, b, i, j)
    requires 0 <= i < |a| && 0 <= j < |b| && a[i].range != b[j].range
    ensures if a[i].range.start < b[j].range.start then InStep(a, b, i + 1, j) else InStep(a, b, i, j + 1)
  {
    forall p, q | InBoth(a, b, p, q)
      ensures if a[i].range.start < b[j].range.start then p < i + 1 <==> q < j else p < i <==> q < j + 1
    {
      assert p < i <==> q < j;
    }
  }

  ghost predicate Going(a: seq<Entry>, b: seq<Entry>, i: int, j: int, ms: seq<ByteRange>, ns: seq<ByteRange>) {
    InStep(a, b, i, j) && Compared(a, b, i, j, ms, true) && Compared(a, b, i, j, ns, false)
  }

  /**
   * The ranges in both with equal hashes, and those with different ones: all of them, if no two
   * ranges of a list start at the same place.
   */
  method Compare(a: seq<Entry>, b: seq<Entry>) returns (matches: seq<ByteRange>, mismatches: seq<ByteRange>)
    ensures forall r | r in matches :: MatchIn(a, b, r, true)
    ensures forall r | r in mismatches :: MatchIn(a, b, r, false)
    ensures Strict(a) && Strict(b) ==> forall r :: r in matches <==> MatchIn(a, b, r, true)
    ensures Strict(a) && Strict(b) ==> forall r :: r in mismatches <==> MatchIn(a, b, r, false)
  {
    matches, mismatches := [], [];
    var i, j := 0, 0;
    while i < |a| && j < |b|
      invariant 0 <= i <= |a| && 0 <= j <= |b|
      invariant forall r | r in matches :: MatchIn(a, b, r, true)
      invariant forall r | r in mismatches :: MatchIn(a, b, r, false)
      invariant Strict(a) && Strict(b) ==> Going(a, b, i, j, matches, mismatches)
    {
      if Strict(a) && Strict(b) {
        GoingOn(a, b, i, j, matches, mismatches);
      }
      if a[i].range == b[j].range {
        assert InBoth(a, b, i, j);
        if a[i].hash == b[j].hash {
          matches := matches + [a[i].range];
        } else {
          mismatches := mismatches + [a[i].range];
        }
        i, j := i + 1, j + 1;
      } else if a[i].range.start < b[j].range.start {
        i := i + 1;
      } else {
        j := j + 1;
      }
    }
  }

  lemma GoingOn(a: seq<Entry>, b: seq<Entry>, i: int, j: int, ms: seq<ByteRange>, ns: seq<ByteRange>)
    requires Strict(a) && Strict(b) && Going(a, b, i, j, ms, ns) && 0 <= i < |a| && 0 <= j < |b|
    ensures a[i].range == b[j].range ==>
              Going(a, b, i + 1, j + 1,
                    if a[i].hash == b[j].hash then ms + [a[i].range] else ms,
                    if a[i].hash == b[j].hash then ns else ns + [a[i].range])
    ensures a[i].range != b[j].range ==>
              if a[i].range.start < b[j].range.start then Going(a, b, i + 1, j, ms, ns)
              else Going(a, b, i, j + 1, ms, ns)
  {
    if a[i].range == b[j].range {
      InStepBoth(a, b, i, j);
      ComparedBoth(a, b, i, j, ms, true);
      ComparedBoth(a, b, i, j, ns, false);
    } else {
      InStepOne(a, b, i, j);
      if a[i].range.start < b[j].range.start {
        ComparedOne(a, b, i, j, i + 1, j, ms, ns);
      } else {
        ComparedOne(a, b, i, j, i, j + 1, ms, ns);
      }
    }
  }

  lemma ComparedBoth(a: seq<Entry>, b: seq<Entry>, i: int, j: int, rs: seq<ByteRange>, same: bool)
    requires Strict(a) && Strict(b) && InStep(a, b, i, j) && InBoth(a, b, i, j) && Compared(a, b, i, j, rs, same)
    ensures Compared(a, b, i + 1, j + 1, if (a[i].hash == b[j].hash) == same then rs + [a[i].range] else rs, same)
  {
    InStepBoth(a, b, i, j);
    forall p, q | InBoth(a, b, p, q) ensures p < i + 1 && q < j + 1 <==> (p < i && q < j) || (p == i && q == j) {
      assert p < i <==> q < j;
      assert p < i + 1 <==> q < j + 1;
    }
  }

  lemma ComparedOne(a: seq<Entry>, b: seq<Entry>, i: int, j: int, k: int, l: int, ms: seq<ByteRange>,
                    ns: seq<ByteRange>)
    requires i <= k && j <= l && InStep(a, b, i, j) && InStep(a, b, k, l) && (k == i || l == j)
    requires Compared(a, b, i, j, ms, true) && Compared(a, b, i, j, ns, false)
    ensures Compared(a, b, k, l, ms, true) && Compared(a, b, k, l, ns, false)
  {
    forall p, q | InBoth(a, b, p, q) ensures p < k && q < l <==> p < i && q < j {
      assert p < i <==> q < j;
      assert p < k <==> q < l;
    }
  }

  class RangedHash {
    var hashes: seq<Entry>

    ghost predicate Valid()
      reads this
    {
      InOrder(hashes)
    }

    constructor ()
      ensures Valid() && hashes == []
    {
      hashes := [];
    }

    /** The new hash goes after those with smaller or equal ranges. */
    method Add(range: ByteRange, hash: Hash)
      requires Valid()
      modifies this
      ensures Valid() && hashes == Insert(old(hashes), Entry(range, hash))
    {
      var all, e := hashes, Entry(range, hash);
      var k := |all|;
      assert all[..k] == all && all[k..] == [];
      while k > 0 && !AtMost(all[k - 1].range, range)
        invariant 0 <= k <= |all|
        invariant Insert(all, e) == Insert(all[..k], e) + all[k..]
      {
        InsertBefore(all, k, e);
        k := k - 1;
      }
      InsertHere(all, k, e);
      InsertedInOrder(all, e);
      hashes := all[..k] + [e] + all[k..];
    }

    /** Whether the ranges chain up to exactly the whole file; an empty list does not even for an empty file. */
    method IsComplete(filesize: u64) returns (complete: bool)
      ensures complete <==> hashes != [] && Chained(hashes, 0, filesize)
    {
      if hashes == [] {
        return false;
      }
      var expected: nat := 0;
      for i := 0 to |hashes|
        invariant Chained(hashes[..i], 0, expected)
      {
        if hashes[i].range.start != expected {
          BrokenChain(hashes, i, expected, filesize);
          return false;
        }
        assert hashes[..i + 1][..i] == hashes[..i];
        expected := hashes[i].range.end;
      }
      assert hashes[..|hashes|] == hashes;
      complete := expected == filesize;
      if Chained(hashes, 0, filesize) {
        ChainedOnce(hashes, 0, expected, filesize);
      }
    }

    /** Ranges that are not aligned are in neither answer. */
    method Diff(other: RangedHash) returns (matches: ByteRanges, mismatches: ByteRanges)
      ensures matches.Valid() && mismatches.Valid() && fresh(matches) && fresh(mismatches) && matches != mismatches
      ensures forall x: nat | Covers(matches.btree, x) :: CoveredBy(hashes, other.hashes, x, true)
      ensures forall x: nat | Covers(mismatches.btree, x) :: CoveredBy(hashes, other.hashes, x, false)
      ensures Strict(hashes) && Strict(other.hashes) ==>
                && (forall x: nat :: Covers(matches.btree, x) <==> CoveredBy(hashes, other.hashes, x, true))
                && (forall x: nat :: Covers(mismatches.btree, x) <==> CoveredBy(hashes, other.hashes, x, false))
    {
      var ms, ns := Compare(hashes, other.hashes);
      matches := new ByteRanges.FromRanges(ms);
      mismatches := new ByteRanges.FromRanges(ns);
      forall x: nat
        ensures InSome(ms, x) ==> CoveredBy(hashes, other.hashes, x, true)
        ensures InSome(ns, x) ==> CoveredBy(hashes, other.hashes, x, false)
        ensures Strict(hashes) && Strict(other.hashes) && CoveredBy(hashes, other.hashes, x, true) ==> InSome(ms, x)
        ensures Strict(hashes) && Strict(other.hashes) && CoveredBy(hashes, other.hashes, x, false) ==> InSome(ns, x)
      {
        InSomeMatch(hashes, other.hashes, ms, x, true);
        InSomeMatch(hashes, other.hashes, ns, x, false);
      }
    }
  }

  /** `x` is in a range that both have, with equal or with different hashes. */
  ghost predicate CoveredBy(a: seq<Entry>, b: seq<Entry>, x: nat, same: bool) {
    exists i, j :: InBoth(a, b, i, j) && a[i].range.Contains(x) && (a[i].hash == b[j].hash) == same
  }

  lemma InSomeMatch(a: seq<Entry>, b: seq<Entry>, rs: seq<ByteRange>, x: nat, same: bool)
    requires forall r | r in rs :: MatchIn(a, b, r, same)
    ensures InSome(rs, x) ==> CoveredBy(a, b, x, same)
    ensures (forall r | MatchIn(a, b, r, same) :: r in rs) && CoveredBy(a, b, x, same) ==> InSome(rs, x)
  {
    if InSome(rs, x) {
      var k :| 0 <= k < |rs| && rs[k].Contains(x);
      assert MatchIn(a, b, rs[k], same);
    }
    if CoveredBy(a, b, x, same) {
      var i, j :| InBoth(a, b, i, j) && a[i].range.Contains(x) && (a[i].hash == b[j].hash) == same;
      assert MatchIn(a, b, a[i].range, same);
    }
  }
}
