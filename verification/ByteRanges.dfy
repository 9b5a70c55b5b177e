/** Sets of byte ranges: the set operations, in-place addition, iteration and chunking. */
module ByteRangeSets {
  import opened Common
  import opened Ranges

  // ---------------------------------------------------------------------
  // Union, intersection and subtraction as level sets of one sweep
  // ---------------------------------------------------------------------

  function Reversed(b: Boundaries): (r: Boundaries)
    ensures |r| == |b|
    ensures forall i | 0 <= i < |b| :: r[i] == Boundary(b[i].at, b[i].point.Reverse())
  {
    if b == [] then [] else [Boundary(b[0].at, b[0].point.Reverse())] + Reversed(b[1..])
  }

  function SingleOf(start: u64, end: u64): Boundaries {
    if end > start then [Boundary(start, Start), Boundary(end, End)] else []
  }

  lemma SingleIsExact(start: u64, end: u64)
    ensures WellFormed(SingleOf(start, end))
    ensures forall x: nat :: Covers(SingleOf(start, end), x) <==> start <= x < end
  {
  }

  function UnionOf(a: Boundaries, b: Boundaries): Boundaries {
    Crossings(Merged(a, b), 0, 1)
  }

  function IntersectionOf(a: Boundaries, b: Boundaries): Boundaries {
    Crossings(Merged(a, b), 0, 2)
  }

  function SubtractionOf(a: Boundaries, b: Boundaries): Boundaries {
    Crossings(Merged(a, Reversed(b)), 1, 2)
  }

  lemma {:induction false} ReversedDepth(b: Boundaries, x: nat)
    ensures Depth(Reversed(b), x) == -Depth(b, x)
    ensures Total(Reversed(b)) == -Total(b)
  {
    if b != [] {
      assert Reversed(b)[1..] == Reversed(b[1..]);
      ReversedDepth(b[1..], x);
    }
  }

  lemma LevelSet(m: Boundaries, d: int, level: int)
    requires Stream(m) && d < level && d + Total(m) < level
    ensures WellFormed(Crossings(m, d, level))
    ensures forall x: nat :: Covers(Crossings(m, d, level), x) <==> d + Depth(m, x) >= level
  {
    CrossingsAlternate(m, d, level);
    forall x: nat ensures Covers(Crossings(m, d, level), x) <==> d + Depth(m, x) >= level {
      CrossingsDepth(m, d, level, x);
      DepthIsCovers(Crossings(m, d, level), x);
    }
  }

  function Bit(b: Boundaries, x: nat): int {
    if Covers(b, x) then 1 else 0
  }

  lemma MergedSums(a: Boundaries, b: Boundaries)
    requires WellFormed(a) && WellFormed(b)
    ensures Stream(Merged(a, b)) && Total(Merged(a, b)) == 0
    ensures forall x: nat :: Depth(Merged(a, b), x) == Bit(a, x) + Bit(b, x)
  {
    MergedStream(a, b);
    MergedTotal(a, b);
    TotalAlternating(a);
    TotalAlternating(b);
    forall x: nat ensures Depth(Merged(a, b), x) == Bit(a, x) + Bit(b, x) {
      MergedDepth(a, b, x);
      DepthIsCovers(a, x);
      DepthIsCovers(b, x);
    }
  }

  lemma UnionIsExact(a: Boundaries, b: Boundaries)
    requires WellFormed(a) && WellFormed(b)
    ensures WellFormed(UnionOf(a, b))
    ensures forall x: nat :: Covers(UnionOf(a, b), x) <==> Covers(a, x) || Covers(b, x)
  {
    MergedSums(a, b);
    LevelSet(Merged(a, b), 0, 1);
  }

  lemma IntersectionIsExact(a: Boundaries, b: Boundaries)
    requires WellFormed(a) && WellFormed(b)
    ensures WellFormed(IntersectionOf(a, b))
    ensures forall x: nat :: Covers(IntersectionOf(a, b), x) <==> Covers(a, x) && Covers(b, x)
  {
    MergedSums(a, b);
    LevelSet(Merged(a, b), 0, 2);
  }

  lemma SubtractionIsExact(a: Boundaries, b: Boundaries)
    requires WellFormed(a) && WellFormed(b)
    ensures WellFormed(SubtractionOf(a, b))
    ensures forall x: nat :: Covers(SubtractionOf(a, b), x) <==> Covers(a, x) && !Covers(b, x)
    ensures Total(Merged(a, Reversed(b))) == 0
  {
    var r := Reversed(b);
    var m := Merged(a, r);
    MergedStream(a, r);
    MergedTotal(a, r);
    TotalAlternating(a);
    TotalAlternating(b);
    ReversedDepth(b, 0);
    LevelSet(m, 1, 2);
    forall x: nat ensures Covers(SubtractionOf(a, b), x) <==> Covers(a, x) && !Covers(b, x) {
      MergedDepth(a, r, x);
      ReversedDepth(b, x);
      DepthIsCovers(a, x);
      DepthIsCovers(b, x);
    }
  }

  /** During each sweep the depth stays between 0 and 2. */
  lemma SweepDepth(a: Boundaries, b: Boundaries, k: nat)
    requires WellFormed(a) && WellFormed(b)
    ensures k <= |Merged(a, b)| ==> 0 <= Total(Merged(a, b)[..k]) <= 2
    ensures k <= |Merged(a, Reversed(b))| ==> 0 <= 1 + Total(Merged(a, Reversed(b))[..k]) <= 2
  {
    WellFormedSuffix(a);
    WellFormedSuffix(b);
    assert Suffix(Reversed(b), End) && Level(Reversed(b), End) == 0;
    if k <= |Merged(a, b)| {
      PrefixLevel(a, Start, b, Start, k);
    }
    if k <= |Merged(a, Reversed(b))| {
      PrefixLevel(a, Start, Reversed(b), End, k);
    }
  }

  lemma UnionWithEmpty(b: Boundaries)
    requires WellFormed(b)
    ensures UnionOf([], b) == b
  {
    UnionIsExact([], b);
    Canonical(UnionOf([], b), b);
  }

  lemma IntersectionWithEmpty(a: Boundaries, b: Boundaries)
    requires WellFormed(a) && WellFormed(b)
    requires a == [] || b == []
    ensures IntersectionOf(a, b) == []
  {
    IntersectionIsExact(a, b);
    Canonical(IntersectionOf(a, b), []);
  }

  // ---------------------------------------------------------------------
  // Lookups in the sorted map
  // ---------------------------------------------------------------------

  /** The number of keys before the first one that is not below `at`. */
  function Rank(b: Boundaries, at: nat): (k: nat)
    ensures k <= |b|
    ensures forall i | 0 <= i < k :: b[i].at < at
    ensures k < |b| ==> b[k].at >= at
  {
    RankFrom(b, at, 0)
  }

  function RankFrom(b: Boundaries, at: nat, from: nat): (k: nat)
    requires from <= |b|
    ensures from <= k <= |b|
    ensures forall i | from <= i < k :: b[i].at < at
    ensures k < |b| ==> b[k].at >= at
    decreases |b| - from
  {
    if from == |b| || b[from].at >= at then from else RankFrom(b, at, from + 1)
  }

  function LastBelow(b: Boundaries, at: nat): Option<Boundary> {
    var k := Rank(b, at);
    if k == 0 then None else Some(b[k - 1])
  }

  function FirstFrom(b: Boundaries, at: nat): Option<Boundary> {
    var k := Rank(b, at);
    if k == |b| then None else Some(b[k])
  }

  /** The map with `at` bound to `point`, whatever it was bound to before. */
  function Inserted(b: Boundaries, at: u64, point: Point): Boundaries {
    var k := Rank(b, at);
    b[..k] + [Boundary(at, point)] + (if k < |b| && b[k].at == at then b[k + 1..] else b[k..])
  }

  /** The map without key `at`. */
  function Removed(b: Boundaries, at: u64): Boundaries {
    var k := Rank(b, at);
    if k < |b| && b[k].at == at then b[..k] + b[k + 1..] else b
  }

  lemma RankSplit(b: Boundaries, at: nat, k: nat)
    requires k <= |b|
    requires forall i | 0 <= i < k :: b[i].at < at
    requires k < |b| ==> b[k].at >= at
    ensures Rank(b, at) == k
  {
  }

  lemma RankMonotone(b: Boundaries, x: nat, y: nat)
    requires x <= y
    ensures Rank(b, x) <= Rank(b, y)
  {
  }

  lemma InsertedLast(b: Boundaries, at: u64, point: Point)
    requires Sorted(b)
    requires b != [] ==> b[|b| - 1].at < at
    ensures Inserted(b, at, point) == b + [Boundary(at, point)]
  {
    RankSplit(b, at, |b|);
  }

  // ---------------------------------------------------------------------
  // Adding a range
  // ---------------------------------------------------------------------

  /** What is kept before `start`, closed off by a Start unless one is open already. */
  function LeftPart(b: Boundaries, start: u64): Boundaries {
    var kept := b[..Rank(b, start)];
    if Open(kept) then kept else kept + [Boundary(start, Start)]
  }

  /** What is kept after `end`, opened by an End unless one comes next already. */
  function RightPart(b: Boundaries, end: u64): Boundaries {
    Closed(b[Rank(b, end + 1)..], end)
  }

  function Closed(kept: Boundaries, end: u64): Boundaries {
    if kept != [] && kept[0].point.End? then kept else [Boundary(end, End)] + kept
  }

  /** What `Add` makes of a well-formed map. */
  function Added(b: Boundaries, r: ByteRange): Boundaries {
    if r.IsEmpty() then b else LeftPart(b, r.start) + RightPart(b, r.end)
  }

  lemma AlternatingConcat(a: Boundaries, c: Boundaries)
    requires Alternating(a) && Sorted(c)
    requires InTurn(c)
    requires c != [] ==> if a == [] then c[0].point.Start?
                         else a[|a| - 1].at < c[0].at && a[|a| - 1].point != c[0].point
    ensures Alternating(a + c)
  {
    var d := a + c;
    forall i, j | 0 <= i < j < |d| ensures d[i].at < d[j].at {
      if i < |a| <= j {
        assert d[i].at <= a[|a| - 1].at < c[0].at <= c[j - |a|].at;
      }
    }
    forall i, j | 0 <= i < j < |d| && j == i + 1 ensures d[i].point != d[j].point {
      if i >= |a| {
        assert c[i - |a|].point != c[j - |a|].point;
      }
    }
  }

  lemma HeadDepth(b: Boundaries, k: nat, x: nat)
    requires WellFormed(b) && k <= |b|
    requires forall i | 0 <= i < k :: b[i].at <= x
    ensures Depth(b[..k], x) == if Open(b[..k]) then 1 else 0
  {
    DepthAfter(b[..k], x);
    TotalAlternating(b[..k]);
  }

  lemma SplitDepth(b: Boundaries, k: nat, x: nat)
    requires WellFormed(b) && k <= |b|
    ensures Depth(b, x) == Depth(b[..k], x) + Depth(b[k..], x)
    ensures (forall i | 0 <= i < k :: b[i].at <= x) ==> Depth(b[..k], x) == if Open(b[..k]) then 1 else 0
    ensures (forall i | k <= i < |b| :: x < b[i].at) ==> Depth(b[k..], x) == 0
  {
    assert b == b[..k] + b[k..];
    DepthConcat(b[..k], b[k..], x);
    if forall i | 0 <= i < k :: b[i].at <= x {
      HeadDepth(b, k, x);
    }
    if forall i | k <= i < |b| :: x < b[i].at {
      DepthBefore(b[k..], x);
    }
  }

  lemma LeftPartShape(b: Boundaries, start: u64)
    requires WellFormed(b)
    ensures Alternating(LeftPart(b, start)) && Open(LeftPart(b, start))
    ensures forall i | 0 <= i < |LeftPart(b, start)| :: LeftPart(b, start)[i].at <= start
  {
    var kept := b[..Rank(b, start)];
    if !Open(kept) {
      AlternatingConcat(kept, [Boundary(start, Start)]);
    }
  }

  lemma LeftPartDepth(b: Boundaries, start: u64, x: nat)
    requires WellFormed(b)
    ensures Depth(LeftPart(b, start), x) == if x < start then Depth(b, x) else 1
  {
    var lo := Rank(b, start);
    SplitDepth(b, lo, x);
    DepthConcat(b[..lo], [Boundary(start, Start)], x);
  }

  /** Points in turn that start with an End at or after `end`, every Start closed. */
  ghost predicate Closing(r: Boundaries, end: u64) {
    && Sorted(r) && r != [] && !Open(r)
    && r[0].point.End? && r[0].at >= end
    && InTurn(r)
  }

  lemma ClosingTail(kept: Boundaries, end: u64)
    requires Sorted(kept) && InTurn(kept) && !Open(kept)
    requires forall i | 0 <= i < |kept| :: end < kept[i].at
    ensures Closing(Closed(kept, end), end)
  {
  }

  lemma RightPartShape(b: Boundaries, end: u64)
    requires WellFormed(b)
    ensures Closing(RightPart(b, end), end)
  {
    ClosingTail(b[Rank(b, end + 1)..], end);
  }

  lemma ClosedDepth(kept: Boundaries, end: u64, x: nat)
    ensures Depth(Closed(kept, end), x) ==
            if (kept != [] && kept[0].point.End?) || x < end then Depth(kept, x) else Depth(kept, x) - 1
  {
    DepthConcat([Boundary(end, End)], kept, x);
  }

  lemma RightPartDepth(b: Boundaries, end: u64, x: nat)
    requires WellFormed(b)
    ensures Depth(RightPart(b, end), x) == if x < end then 0 else Depth(b, x) - 1
  {
    var hi := Rank(b, end + 1);
    SplitDepth(b, hi, x);
    ClosedDepth(b[hi..], end, x);
    if hi < |b| && b[hi].point.End? {
      assert hi > 0 && b[hi - 1].point != b[hi].point;
    }
  }

  lemma AddedWellFormed(b: Boundaries, r: ByteRange)
    requires WellFormed(b)
    ensures WellFormed(Added(b, r))
  {
    if !r.IsEmpty() {
      var left, right := LeftPart(b, r.start), RightPart(b, r.end);
      LeftPartShape(b, r.start);
      RightPartShape(b, r.end);
      AlternatingConcat(left, right);
    }
  }

  /** Adding a range adds exactly its bytes. */
  lemma AddedIsExact(b: Boundaries, r: ByteRange)
    requires WellFormed(b)
    ensures WellFormed(Added(b, r))
    ensures forall x: nat :: Covers(Added(b, r), x) <==> Covers(b, x) || r.Contains(x)
  {
    AddedWellFormed(b, r);
    if !r.IsEmpty() {
      forall x: nat ensures Covers(Added(b, r), x) <==> Covers(b, x) || r.Contains(x) {
        LeftPartDepth(b, r.start, x);
        RightPartDepth(b, r.end, x);
        DepthConcat(LeftPart(b, r.start), RightPart(b, r.end), x);
        DepthIsCovers(b, x);
        DepthIsCovers(Added(b, r), x);
      }
    }
  }

  // ---------------------------------------------------------------------
  // Iteration
  // ---------------------------------------------------------------------

  /** The ranges, read off the points two at a time. */
  function RangesOf(b: Boundaries): seq<ByteRange> {
    if |b| >= 2 && b[0].point.Start? && b[1].point.End?
    then [ByteRange(b[0].at, b[1].at)] + RangesOf(b[2..])
    else []
  }

  ghost predicate InSome(rs: seq<ByteRange>, x: nat) {
    exists i | 0 <= i < |rs| :: rs[i].Contains(x)
  }

  lemma InSomeConcat(rs: seq<ByteRange>, ss: seq<ByteRange>, x: nat)
    ensures InSome(rs + ss, x) <==> InSome(rs, x) || InSome(ss, x)
  {
    if InSome(rs, x) {
      var i :| 0 <= i < |rs| && rs[i].Contains(x);
      assert (rs + ss)[i].Contains(x);
    }
    if InSome(ss, x) {
      var i :| 0 <= i < |ss| && ss[i].Contains(x);
      assert (rs + ss)[|rs| + i].Contains(x);
    }
  }

  lemma {:induction false} RangesOfCovers(b: Boundaries, x: nat)
    requires WellFormed(b)
    ensures InSome(RangesOf(b), x) <==> Covers(b, x)
  {
    if b != [] {
      FirstPair(b);
      RangesOfCovers(b[2..], x);
      InSomeConcat([ByteRange(b[0].at, b[1].at)], RangesOf(b[2..]), x);
      assert [ByteRange(b[0].at, b[1].at)][0].Contains(x) <==> b[0].at <= x < b[1].at;
    }
  }

  /** Adding ranges one by one, in the order given. */
  function AddedAll(b: Boundaries, rs: seq<ByteRange>): Boundaries {
    if rs == [] then b else Added(AddedAll(b, rs[..|rs| - 1]), rs[|rs| - 1])
  }

  lemma {:induction false} AddedAllIsExact(b: Boundaries, rs: seq<ByteRange>)
    requires WellFormed(b)
    ensures WellFormed(AddedAll(b, rs))
    ensures forall x: nat :: Covers(AddedAll(b, rs), x) <==> Covers(b, x) || InSome(rs, x)
  {
    if rs != [] {
      var n := |rs| - 1;
      AddedAllIsExact(b, rs[..n]);
      AddedIsExact(AddedAll(b, rs[..n]), rs[n]);
      forall x: nat ensures Covers(AddedAll(b, rs), x) <==> Covers(b, x) || InSome(rs, x) {
        assert rs == rs[..n] + [rs[n]];
        InSomeConcat(rs[..n], [rs[n]], x);
        assert [rs[n]][0].Contains(x) <==> rs[n].Contains(x);
      }
    }
  }

  /** The order and the pieces in which the same bytes are added make no difference. */
  lemma AddOrderIrrelevant(b: Boundaries, rs: seq<ByteRange>, ss: seq<ByteRange>)
    requires WellFormed(b)
    requires forall x: nat :: InSome(rs, x) <==> InSome(ss, x)
    ensures AddedAll(b, rs) == AddedAll(b, ss)
  {
    AddedAllIsExact(b, rs);
    AddedAllIsExact(b, ss);
    Canonical(AddedAll(b, rs), AddedAll(b, ss));
  }

  /** Writing a set out as ranges and reading it back gives the same map. */
  lemma RangesRoundTrip(b: Boundaries)
    requires WellFormed(b)
    ensures AddedAll([], RangesOf(b)) == b
  {
    AddedAllIsExact([], RangesOf(b));
    forall x: nat ensures Covers(AddedAll([], RangesOf(b)), x) <==> Covers(b, x) {
      RangesOfCovers(b, x);
    }
    Canonical(AddedAll([], RangesOf(b)), b);
  }

  /** Adding the ranges of another set is the same as the union sweep. */
  lemma ExtendIsUnion(a: Boundaries, b: Boundaries)
    requires WellFormed(a) && WellFormed(b)
    ensures AddedAll(a, RangesOf(b)) == UnionOf(a, b)
  {
    AddedAllIsExact(a, RangesOf(b));
    UnionIsExact(a, b);
    forall x: nat ensures Covers(AddedAll(a, RangesOf(b)), x) <==> Covers(UnionOf(a, b), x) {
      RangesOfCovers(b, x);
    }
    Canonical(AddedAll(a, RangesOf(b)), UnionOf(a, b));
  }

  // ---------------------------------------------------------------------
  // Counting bytes
  // ---------------------------------------------------------------------

  ghost function Bytes(b: Boundaries): set<nat> {
    set x: nat | x < U64_MAX && Covers(b, x)
  }

  lemma CoveredBytes(b: Boundaries)
    requires WellFormed(b)
    ensures forall x: nat :: x in Bytes(b) <==> Covers(b, x)
  {
    forall x: nat | Covers(b, x) ensures x < U64_MAX {
      CoversBelowMax(b, x);
    }
  }

  lemma {:induction false} CoversBelowMax(b: Boundaries, x: nat)
    requires Covers(b, x)
    ensures x < U64_MAX
  {
    if !(b[0].at <= x < b[1].at) {
      CoversBelowMax(b[2..], x);
    }
  }

  ghost function Interval(lo: nat, hi: nat): set<nat> {
    set x: nat | x < hi && AtLeast(x, lo)
  }

  predicate AtLeast(x: nat, lo: nat) {
    lo <= x
  }

  lemma {:induction false} IntervalSize(lo: nat, hi: nat)
    requires lo <= hi
    ensures |Interval(lo, hi)| == hi - lo
    decreases hi - lo
  {
    if lo < hi {
      IntervalSize(lo + 1, hi);
      assert Interval(lo, hi) == {lo} + Interval(lo + 1, hi);
    }
  }

  function SumOf(rs: seq<ByteRange>): nat {
    if rs == [] then 0 else rs[0].Bytecount() + SumOf(rs[1..])
  }

  lemma {:induction false} SumConcat(rs: seq<ByteRange>, ss: seq<ByteRange>)
    ensures SumOf(rs + ss) == SumOf(rs) + SumOf(ss)
  {
    if rs == [] {
      assert rs + ss == ss;
    } else {
      assert (rs + ss)[1..] == rs[1..] + ss;
      SumConcat(rs[1..], ss);
    }
  }

  /** The ranges' lengths add up to the number of bytes in the set. */
  lemma {:induction false} SumIsCardinality(b: Boundaries)
    requires WellFormed(b)
    ensures SumOf(RangesOf(b)) == |Bytes(b)|
  {
    if b == [] {
      assert Bytes(b) == {};
    } else {
      FirstPair(b);
      SumIsCardinality(b[2..]);
      IntervalSize(b[0].at, b[1].at);
      var first, rest := Interval(b[0].at, b[1].at), Bytes(b[2..]);
      forall x: nat | x < b[1].at ensures x !in rest {
        if |b| > 2 { CoversOnlyFrom(b[2..], x); }
      }
      assert Bytes(b) == first + rest;
      assert first !! rest;
    }
  }

  // ---------------------------------------------------------------------
  // Chunks
  // ---------------------------------------------------------------------

  /** Finding the end of each chunk takes an addition; none of them goes beyond 64 bits. */
  predicate ChunksFit(r: ByteRange, size: u64)
    decreases if r.start < r.end then r.end - r.start else 0
  {
    || size == 0 || r.start >= r.end
    || (r.start + size <= U64_MAX && (r.start + size >= r.end || ChunksFit(ByteRange(r.start + size, r.end), size)))
  }

  /** Where the last chunk starts. */
  function LastChunk(start: nat, end: nat, size: nat): (last: nat)
    requires size > 0 && start < end
    ensures start <= last < end <= last + size
    decreases end - start
  {
    if start + size >= end then start else LastChunk(start + size, end, size)
  }

  /** So it is the last chunk that decides. */
  lemma {:induction false} ChunksFitExactly(r: ByteRange, size: u64)
    requires size > 0 && r.start < r.end
    ensures ChunksFit(r, size) <==> LastChunk(r.start, r.end, size) + size <= U64_MAX
    decreases r.end - r.start
  {
    if r.start + size < r.end {
      ChunksFitExactly(ByteRange(r.start + size, r.end), size);
    }
  }

  lemma {:induction false} ChunksFitBelow(r: ByteRange, size: u64)
    requires r.end + size <= U64_MAX
    ensures ChunksFit(r, size)
    decreases if r.start < r.end then r.end - r.start else 0
  {
    if size > 0 && r.start + size < r.end {
      ChunksFitBelow(ByteRange(r.start + size, r.end), size);
    }
  }

  /** The successive chunks of at most `size` bytes. */
  function ChunksOf(r: ByteRange, size: u64): seq<ByteRange>
    requires ChunksFit(r, size)
    decreases if r.start < r.end then r.end - r.start else 0
  {
    if size == 0 || r.start >= r.end then []
    else
      var end := if r.start + size > r.end then r.end else r.start + size;
      [ByteRange(r.start, end)] + ChunksOf(ByteRange(end, r.end), size)
  }

  function AllChunks(rs: seq<ByteRange>, size: u64): seq<ByteRange>
    requires forall r | r in rs :: ChunksFit(r, size)
  {
    if rs == [] then [] else ChunksOf(rs[0], size) + AllChunks(rs[1..], size)
  }

  /** Non-empty, within `[lo, hi)`, of at most `size` bytes, in order and without overlap. */
  ghost predicate Tiling(cs: seq<ByteRange>, lo: nat, hi: nat, size: nat) {
    && (forall i | 0 <= i < |cs| :: lo <= cs[i].start < cs[i].end <= hi && cs[i].Bytecount() <= size)
    && (forall i, j | 0 <= i < j < |cs| :: cs[i].end <= cs[j].start)
  }

  lemma TilingConcat(cs: seq<ByteRange>, ds: seq<ByteRange>, lo: nat, mid: nat, hi: nat, size: nat)
    requires lo <= mid <= hi
    requires Tiling(cs, lo, mid, size) && Tiling(ds, mid, hi, size)
    ensures Tiling(cs + ds, lo, hi, size)
  {
    var es := cs + ds;
    forall i, j | 0 <= i < j < |es| ensures es[i].end <= es[j].start {
      if i < |cs| <= j {
        assert cs[i].end <= mid <= ds[j - |cs|].start;
      }
    }
  }

  lemma InSomeSingle(r: ByteRange, x: nat)
    ensures InSome([r], x) <==> r.Contains(x)
  {
    assert [r][0] == r;
  }

  /** Chunks of a range are in order and do not overlap. */
  lemma {:induction false} ChunksTile(r: ByteRange, size: u64)
    requires ChunksFit(r, size)
    ensures Tiling(ChunksOf(r, size), r.start, r.end, size)
    decreases if r.start < r.end then r.end - r.start else 0
  {
    if size > 0 && r.start < r.end {
      var end := if r.start + size > r.end then r.end else r.start + size;
      var first, rest := ByteRange(r.start, end), ByteRange(end, r.end);
      ChunksTile(rest, size);
      TilingConcat([first], ChunksOf(rest, size), r.start, end, r.end, size);
    }
  }

  lemma {:induction false} ChunksSum(r: ByteRange, size: u64)
    requires ChunksFit(r, size)
    ensures SumOf(ChunksOf(r, size)) == if size == 0 then 0 else r.Bytecount()
    decreases if r.start < r.end then r.end - r.start else 0
  {
    if size > 0 && r.start < r.end {
      var end := if r.start + size > r.end then r.end else r.start + size;
      ChunksSum(ByteRange(end, r.end), size);
    }
  }

  lemma {:induction false} ChunksCover(r: ByteRange, size: u64, x: nat)
    requires ChunksFit(r, size)
    ensures InSome(ChunksOf(r, size), x) <==> size > 0 && r.Contains(x)
    decreases if r.start < r.end then r.end - r.start else 0
  {
    if size > 0 && r.start < r.end {
      var end := if r.start + size > r.end then r.end else r.start + size;
      var first, rest := ByteRange(r.start, end), ByteRange(end, r.end);
      ChunksCover(rest, size, x);
      InSomeConcat([first], ChunksOf(rest, size), x);
      InSomeSingle(first, x);
    }
  }

  lemma {:induction false} RangesBelow(b: Boundaries, bound: nat)
    requires WellFormed(b)
    requires b != [] ==> b[|b| - 1].at <= bound
    ensures forall r | r in RangesOf(b) :: r.end <= bound
  {
    if b != [] {
      FirstPair(b);
      RangesBelow(b[2..], bound);
    }
  }

  lemma RangesFit(b: Boundaries, size: u64, bound: nat)
    requires WellFormed(b) && bound + size <= U64_MAX
    requires b != [] ==> b[|b| - 1].at <= bound
    ensures forall r | r in RangesOf(b) :: ChunksFit(r, size)
  {
    RangesBelow(b, bound);
    forall r | r in RangesOf(b) ensures ChunksFit(r, size) {
      ChunksFitBelow(r, size);
    }
  }

  ghost predicate AllBelow(b: Boundaries, bound: nat) {
    forall x: nat | Covers(b, x) :: x < bound
  }

  lemma {:induction false} LastIsBelow(b: Boundaries, bound: nat)
    requires WellFormed(b) && AllBelow(b, bound)
    ensures b != [] ==> b[|b| - 1].at <= bound
  {
    if b != [] {
      FirstPair(b);
      var x: nat := b[1].at - 1;
      assert Covers(b, x);
      forall y: nat | Covers(b[2..], y) ensures y < bound {
        assert Covers(b, y);
      }
      LastIsBelow(b[2..], bound);
    }
  }

  /** The chunks of a whole set are in order, without overlap, and count its bytes. */
  lemma {:induction false} AllChunksTile(b: Boundaries, size: u64, bound: u64)
    requires WellFormed(b) && size > 0 && forall r | r in RangesOf(b) :: ChunksFit(r, size)
    requires b != [] ==> b[|b| - 1].at <= bound
    ensures Tiling(AllChunks(RangesOf(b), size), if b == [] then 0 else b[0].at, bound, size)
    ensures SumOf(AllChunks(RangesOf(b), size)) == SumOf(RangesOf(b))
  {
    if b != [] {
      FirstPair(b);
      var r := ByteRange(b[0].at, b[1].at);
      var cs, ds := ChunksOf(r, size), AllChunks(RangesOf(b[2..]), size);
      ChunksTile(r, size);
      ChunksSum(r, size);
      AllChunksTile(b[2..], size, bound);
      SumConcat(cs, ds);
      assert Tiling(ds, r.end, bound, size);
      TilingConcat(cs, ds, r.start, r.end, bound, size);
    }
  }

  lemma {:induction false} AllChunksCover(b: Boundaries, size: u64, x: nat)
    requires WellFormed(b) && size > 0
    requires forall r | r in RangesOf(b) :: ChunksFit(r, size)
    ensures InSome(AllChunks(RangesOf(b), size), x) <==> Covers(b, x)
  {
    if b != [] {
      FirstPair(b);
      var r := ByteRange(b[0].at, b[1].at);
      ChunksCover(r, size, x);
      AllChunksCover(b[2..], size, x);
      InSomeConcat(ChunksOf(r, size), AllChunks(RangesOf(b[2..]), size), x);
    }
  }

  // ---------------------------------------------------------------------
  // Point queries
  // ---------------------------------------------------------------------

  /** The range that contains `offset`, if any. */
  function ContainingRange(b: Boundaries, offset: u64): Option<ByteRange> {
    match LastBelow(b, offset + 1)
    case Some(Boundary(start, Start)) =>
      (match FirstFrom(b, offset + 1)
       case Some(Boundary(end, End)) => Some(ByteRange(start, end))
       case _ => None)
    case _ => None
  }

  lemma CoversBetween(b: Boundaries, k: nat, x: nat)
    requires WellFormed(b) && k <= |b|
    requires k > 0 ==> b[k - 1].at <= x
    requires k < |b| ==> x < b[k].at
    ensures Covers(b, x) <==> Open(b[..k])
    ensures Open(b[..k]) ==> k < |b| && b[k].point.End?
  {
    SplitDepth(b, k, x);
    DepthIsCovers(b, x);
    if Open(b[..k]) {
      assert k < |b| && b[k - 1].point != b[k].point;
    }
  }

  /** A range is found exactly for covered offsets, it is wholly covered, and it cannot grow. */
  lemma ContainingRangeIsExact(b: Boundaries, offset: u64)
    requires WellFormed(b)
    ensures ContainingRange(b, offset).Some? <==> Covers(b, offset)
    ensures ContainingRange(b, offset).Some? ==>
              var r := ContainingRange(b, offset).value;
              && r.Contains(offset)
              && (forall x | r.start <= x < r.end :: Covers(b, x))
              && !Covers(b, r.end)
              && (r.start > 0 ==> !Covers(b, r.start - 1))
  {
    var k := Rank(b, offset + 1);
    CoversBetween(b, k, offset);
    if Covers(b, offset) {
      var r := ByteRange(b[k - 1].at, b[k].at);
      forall x | r.start <= x < r.end ensures Covers(b, x) {
        CoversBetween(b, k, x);
      }
      CoversBetween(b, k + 1, r.end);
      assert b[..k + 1][k] == b[k];
      if r.start > 0 {
        assert k > 1 ==> b[k - 2].at < b[k - 1].at && b[k - 2].point != b[k - 1].point;
        CoversBetween(b, k - 1, r.start - 1);
      }
    }
  }

  /** The second lookup, at `offset + 1`, is only made when that does not overflow. */
  lemma ContainingRangeNoOverflow(b: Boundaries, offset: u64)
    requires WellFormed(b)
    requires LastBelow(b, offset + 1).Some? && LastBelow(b, offset + 1).value.point.Start?
    ensures offset < U64_MAX
  {
    var k := Rank(b, offset + 1);
    CoversBetween(b, k, offset);
    assert Open(b[..k]);
    assert b[k].at > offset;
  }

  predicate OverlapsRange(b: Boundaries, r: ByteRange)
    requires r.start <= r.end
  {
    || (exists i | 0 <= i < |b| :: r.start <= b[i].at < r.end && b[i].point.Start?)
    || (LastBelow(b, r.start).Some? && LastBelow(b, r.start).value.point.Start?)
  }

  ghost predicate Shares(b: Boundaries, r: ByteRange) {
    exists x: nat :: r.Contains(x) && Covers(b, x)
  }

  lemma StartIsCovered(b: Boundaries, i: nat)
    requires WellFormed(b) && i < |b| && b[i].point.Start?
    ensures Covers(b, b[i].at)
  {
    assert i + 1 < |b|;
    CoversBetween(b, i + 1, b[i].at);
    assert b[..i + 1][i] == b[i];
  }

  lemma OpenBelow(b: Boundaries, at: u64)
    requires WellFormed(b)
    ensures LastBelow(b, at).Some? && LastBelow(b, at).value.point.Start?
            <==> (Covers(b, at) && Boundary(at, Start) !in b) || Boundary(at, End) in b
  {
    var k := Rank(b, at);
    assert forall i | 0 <= i < |b| && b[i].at == at :: i == k;
    if k < |b| && b[k].at == at {
      assert k > 0 ==> b[k - 1].point != b[k].point;
      if b[k].point.End? {
        assert k > 0 && b[k - 1].point.Start?;
        assert b[k] in b;
      }
    } else {
      CoversBetween(b, k, at);
    }
  }

  lemma OverlapsIfShares(b: Boundaries, r: ByteRange, x: u64)
    requires WellFormed(b) && r.Contains(x) && Covers(b, x)
    ensures OverlapsRange(b, r)
  {
    ContainingRangeIsExact(b, x);
    var k := Rank(b, x + 1);
    if b[k - 1].at < r.start {
      RankSplit(b, r.start, k);
    }
  }

  /** A range overlaps when it shares a byte, or starts where a range ends; an empty one inside a range. */
  lemma OverlapsExactly(b: Boundaries, r: ByteRange)
    requires WellFormed(b) && r.start <= r.end
    ensures OverlapsRange(b, r) <==>
              || Shares(b, r)
              || Boundary(r.start, End) in b
              || (r.start == r.end && Covers(b, r.start) && Boundary(r.start, Start) !in b)
  {
    OpenBelow(b, r.start);
    if OverlapsRange(b, r) && Boundary(r.start, End) !in b && r.start < r.end {
      if i :| 0 <= i < |b| && r.start <= b[i].at < r.end && b[i].point.Start? {
        StartIsCovered(b, i);
        assert r.Contains(b[i].at);
      } else {
        assert r.Contains(r.start);
      }
    }
    if Shares(b, r) {
      var x: nat :| r.Contains(x) && Covers(b, x);
      OverlapsIfShares(b, r, x);
    }
  }

  /** So adjacency is reported as overlap although no byte is shared. */
  lemma OverlapsAdjacent()
    ensures var b := [Boundary(0, Start), Boundary(5, End)];
            WellFormed(b) && OverlapsRange(b, ByteRange(5, 9)) && !Shares(b, ByteRange(5, 9))
  {
    var b := [Boundary(0, Start), Boundary(5, End)];
    OverlapsExactly(b, ByteRange(5, 9));
    assert b[1] in b;
    forall x: nat | Covers(b, x) ensures x < 5 {
      assert !Covers(b[2..], x);
    }
  }

  lemma AddLeft(b: Boundaries, r: ByteRange, points: Boundaries)
    requires WellFormed(b) && !r.IsEmpty()
    requires Rank(b, r.start) <= Rank(b, r.end + 1)
    requires points == b[..Rank(b, r.start)] + b[Rank(b, r.end + 1)..]
    ensures (if LastBelow(points, r.start).Some? && LastBelow(points, r.start).value.point.Start?
             then points else Inserted(points, r.start, Start))
         == LeftPart(b, r.start) + b[Rank(b, r.end + 1)..]
  {
    var lo := Rank(b, r.start);
    RankSplit(points, r.start, lo);
    assert lo > 0 ==> points[lo - 1] == b[..lo][lo - 1];
  }

  /** The map with an End put at `end` unless one comes next already. */
  function Ended(points: Boundaries, end: u64): Boundaries {
    var after := FirstFrom(points, end);
    if after.Some? && after.value.point.End? then points else Inserted(points, end, End)
  }

  lemma EndedConcat(left: Boundaries, kept: Boundaries, end: u64)
    requires forall i | 0 <= i < |left| :: left[i].at < end
    requires kept != [] ==> kept[0].at > end
    ensures Ended(left + kept, end) == left + Closed(kept, end)
  {
    RankSplit(left + kept, end, |left|);
  }

  lemma LeftPartBefore(b: Boundaries, start: u64)
    ensures forall i | 0 <= i < |LeftPart(b, start)| :: LeftPart(b, start)[i].at <= start
  {
  }

  lemma RestIsAbove(b: Boundaries, end: u64, kept: Boundaries)
    requires kept == b[Rank(b, end + 1)..]
    ensures kept != [] ==> kept[0].at > end
  {
  }

  lemma EndedParts(left: Boundaries, kept: Boundaries, start: u64, end: u64)
    requires start < end && (kept != [] ==> kept[0].at > end)
    requires forall i | 0 <= i < |left| :: left[i].at <= start
    ensures Ended(left + kept, end) == left + Closed(kept, end)
  {
    EndedConcat(left, kept, end);
  }

  lemma AddRight(b: Boundaries, r: ByteRange, points: Boundaries)
    requires !r.IsEmpty()
    requires points == LeftPart(b, r.start) + b[Rank(b, r.end + 1)..]
    ensures Ended(points, r.end) == Added(b, r)
  {
    var left, kept := LeftPart(b, r.start), b[Rank(b, r.end + 1)..];
    LeftPartBefore(b, r.start);
    RestIsAbove(b, r.end, kept);
    EndedParts(left, kept, r.start, r.end);
  }

  lemma RemovedStep(b: Boundaries, lo: nat, i: nat)
    requires Sorted(b) && lo <= i < |b|
    ensures Removed(b[..lo] + b[i..], b[i].at) == b[..lo] + b[i + 1..]
  {
    var points := b[..lo] + b[i..];
    RankSplit(points, b[i].at, lo);
    assert points[..lo] == b[..lo];
    assert points[lo + 1..] == b[i + 1..];
  }

  /** Removes the keys at positions `lo` to `hi`, one by one. */
  method RemoveKeys(b: Boundaries, lo: nat, hi: nat) returns (points: Boundaries)
    requires Sorted(b) && lo <= hi <= |b|
    ensures points == b[..lo] + b[hi..]
  {
    points := b;
    assert b == b[..lo] + b[lo..];
    for i := lo to hi
      invariant points == b[..lo] + b[i..]
    {
      RemovedStep(b, lo, i);
      points := Removed(points, b[i].at);
    }
  }

  // ---------------------------------------------------------------------
  // The sweeps
  // ---------------------------------------------------------------------

  /** One step of a sweep: the depth moves by one, and a crossing goes at the end of the map. */
  lemma SweepStep(m: Boundaries, k: nat, d: int, level: int)
    requires Stream(m) && d < level && k < |m|
    ensures Total(m[..k + 1]) == Total(m[..k]) + m[k].point.Sign()
    ensures Crossings(m[..k + 1], d, level) ==
            if d + Total(m[..k]) == (if m[k].point.Start? then level - 1 else level)
            then Inserted(Crossings(m[..k], d, level), m[k].at, m[k].point)
            else Crossings(m[..k], d, level)
  {
    var before, after := Crossings(m[..k], d, level), Crossings(m[..k + 1], d, level);
    assert m[..k + 1][..k] == m[..k];
    TotalLast(m[..k + 1]);
    if after == before + [m[k]] {
      CrossingsAlternate(m[..k + 1], d, level);
      assert before != [] ==> after[|before| - 1] == before[|before| - 1];
      assert after[|before|] == m[k];
      assert Sorted(before) by { CrossingsAlternate(m[..k], d, level); }
      InsertedLast(before, m[k].at, m[k].point);
    }
  }

  /** A stream of points on which a sweep that begins at depth `d` stays between 0 and 2 and ends at `d`. */
  ghost predicate Swept(m: Boundaries, d: int) {
    Stream(m) && Total(m) == 0 && forall k | 0 <= k <= |m| :: 0 <= d + Total(m[..k]) <= 2
  }

  lemma MergedSwept(a: Boundaries, b: Boundaries)
    requires WellFormed(a) && WellFormed(b)
    ensures Swept(Merged(a, b), 0) && Swept(Merged(a, Reversed(b)), 1)
  {
    MergedSums(a, b);
    MergedStream(a, Reversed(b));
    SubtractionIsExact(a, b);
    forall k: nat | k <= |Merged(a, b)| ensures 0 <= Total(Merged(a, b)[..k]) <= 2 {
      SweepDepth(a, b, k);
    }
    forall k: nat | k <= |Merged(a, Reversed(b))| ensures 0 <= 1 + Total(Merged(a, Reversed(b))[..k]) <= 2 {
      SweepDepth(a, b, k);
    }
  }

  method UnionSweep(stream: Boundaries) returns (points: Boundaries)
    requires Swept(stream, 0)
    ensures points == Crossings(stream, 0, 1)
  {
    points := [];
    var depth := 0;
    for k := 0 to |stream|
      invariant depth == Total(stream[..k])
      invariant points == Crossings(stream[..k], 0, 1)
    {
      SweepStep(stream, k, 0, 1);
      match stream[k] {
        case Boundary(at, Start) =>
          if depth == 0 {
            points := Inserted(points, at, Start);
          }
          depth := depth + 1;
        case Boundary(at, End) =>
          depth := depth - 1;
          if depth == 0 {
            points := Inserted(points, at, End);
          }
      }
      assert 0 <= depth <= 2;
    }
    assert stream[..|stream|] == stream;
    assert depth == 0;
  }

  method IntersectionSweep(stream: Boundaries) returns (points: Boundaries)
    requires Swept(stream, 0)
    ensures points == Crossings(stream, 0, 2)
  {
    points := [];
    var depth := 0;
    for k := 0 to |stream|
      invariant depth == Total(stream[..k])
      invariant points == Crossings(stream[..k], 0, 2)
    {
      SweepStep(stream, k, 0, 2);
      match stream[k] {
        case Boundary(at, Start) =>
          depth := depth + 1;
          if depth == 2 {
            points := Inserted(points, at, Start);
          }
        case Boundary(at, End) =>
          if depth == 2 {
            points := Inserted(points, at, End);
          }
          depth := depth - 1;
      }
      assert 0 <= depth <= 2;
    }
    assert stream[..|stream|] == stream;
    assert depth == 0;
  }

  method SubtractionSweep(stream: Boundaries) returns (points: Boundaries)
    requires Swept(stream, 1)
    ensures points == Crossings(stream, 1, 2)
  {
    points := [];
    var depth := 1;
    var started := false;
    for k := 0 to |stream|
      invariant depth == 1 + Total(stream[..k])
      invariant depth >= 2 ==> started
      invariant points == Crossings(stream[..k], 1, 2)
    {
      SweepStep(stream, k, 1, 2);
      match stream[k] {
        case Boundary(at, Start) =>
          depth := depth + 1;
          if depth == 2 {
            started := true;
            points := Inserted(points, at, Start);
          }
        case Boundary(at, End) =>
          if depth == 2 && started {
            points := Inserted(points, at, End);
          }
          depth := depth - 1;
      }
      assert 0 <= depth <= 2;
    }
    assert stream[..|stream|] == stream;
    assert depth == 1;
  }

  // ---------------------------------------------------------------------
  // The mutable set
  // ---------------------------------------------------------------------

  class ByteRanges {
    var btree: Boundaries

    ghost predicate Valid()
      reads this
    {
      WellFormed(btree)
    }

    constructor ()
      ensures Valid() && btree == []
    {
      btree := [];
    }

    constructor Of(b: Boundaries)
      requires WellFormed(b)
      ensures Valid() && btree == b
    {
      btree := b;
    }

    constructor Single(start: u64, end: u64)
      ensures Valid()
      ensures forall x: nat :: Covers(btree, x) <==> start <= x < end
      ensures btree != [] ==> btree[|btree| - 1].at == end
    {
      SingleIsExact(start, end);
      btree := SingleOf(start, end);
    }

    constructor FromRanges(rs: seq<ByteRange>)
      ensures Valid()
      ensures btree == AddedAll([], rs)
      ensures forall x: nat :: Covers(btree, x) <==> InSome(rs, x)
    {
      btree := [];
      new;
      for i := 0 to |rs|
        invariant Valid() && btree == AddedAll([], rs[..i])
      {
        assert rs[..i + 1][..i] == rs[..i];
        Add(rs[i]);
      }
      assert rs[..|rs|] == rs;
      AddedAllIsExact([], rs);
    }

    /** Removes every boundary in the range, then closes off what is left on either side. */
    method Add(range: ByteRange)
      requires Valid()
      modifies this
      ensures Valid()
      ensures btree == Added(old(btree), range)
      ensures forall x: nat :: Covers(btree, x) <==> Covers(old(btree), x) || range.Contains(x)
    {
      var points := btree;
      if !range.IsEmpty() {
        RankMonotone(btree, range.start, range.end + 1);
        points := RemoveKeys(btree, Rank(btree, range.start), Rank(btree, range.end + 1));
        AddLeft(btree, range, points);
        var before := LastBelow(points, range.start);
        if !(before.Some? && before.value.point.Start?) {
          points := Inserted(points, range.start, Start);
        }
        AddRight(btree, range, points);
        var after := FirstFrom(points, range.end);
        if !(after.Some? && after.value.point.End?) {
          points := Inserted(points, range.end, End);
        }
      }
      AddedIsExact(btree, range);
      btree := points;
    }

    /** Takes over the other set when empty, otherwise adds its ranges one by one. */
    method Extend(other: Boundaries)
      requires Valid() && WellFormed(other)
      modifies this
      ensures Valid()
      ensures btree == UnionOf(old(btree), other)
      ensures forall x: nat :: Covers(btree, x) <==> Covers(old(btree), x) || Covers(other, x)
    {
      UnionIsExact(btree, other);
      if btree == [] {
        btree := other;
        UnionWithEmpty(other);
        return;
      }
      ghost var b := btree;
      var rs := RangesOf(other);
      for i := 0 to |rs|
        invariant Valid() && btree == AddedAll(b, rs[..i])
      {
        assert rs[..i + 1][..i] == rs[..i];
        Add(rs[i]);
      }
      assert rs[..|rs|] == rs;
      ExtendIsUnion(b, other);
    }

    method Union(other: ByteRanges) returns (result: ByteRanges)
      requires Valid() && other.Valid()
      ensures fresh(result) && result.Valid()
      ensures result.btree == UnionOf(btree, other.btree)
      ensures forall x: nat :: Covers(result.btree, x) <==> Covers(btree, x) || Covers(other.btree, x)
    {
      UnionIsExact(btree, other.btree);
      if btree == [] {
        UnionWithEmpty(other.btree);
        result := new ByteRanges.Of(other.btree);
        return;
      }
      MergedSwept(btree, other.btree);
      var points := UnionSweep(Merged(btree, other.btree));
      result := new ByteRanges.Of(points);
    }

    method Intersection(other: ByteRanges) returns (result: ByteRanges)
      requires Valid() && other.Valid()
      ensures fresh(result) && result.Valid()
      ensures result.btree == IntersectionOf(btree, other.btree)
      ensures forall x: nat :: Covers(result.btree, x) <==> Covers(btree, x) && Covers(other.btree, x)
    {
      IntersectionIsExact(btree, other.btree);
      if btree == [] || other.btree == [] {
        IntersectionWithEmpty(btree, other.btree);
        result := new ByteRanges();
        return;
      }
      MergedSwept(btree, other.btree);
      var points := IntersectionSweep(Merged(btree, other.btree));
      result := new ByteRanges.Of(points);
    }

    /** An intersection with the reverse of the other set, which starts and ends opened. */
    method Subtraction(other: ByteRanges) returns (result: ByteRanges)
      requires Valid() && other.Valid()
      ensures fresh(result) && result.Valid()
      ensures result.btree == SubtractionOf(btree, other.btree)
      ensures forall x: nat :: Covers(result.btree, x) <==> Covers(btree, x) && !Covers(other.btree, x)
    {
      SubtractionIsExact(btree, other.btree);
      MergedSwept(btree, other.btree);
      var points := SubtractionSweep(Merged(btree, Reversed(other.btree)));
      result := new ByteRanges.Of(points);
    }

    method Bytecount() returns (sum: nat)
      requires Valid()
      ensures sum == |Bytes(btree)|
    {
      sum := 0;
      var rs := RangesOf(btree);
      for i := 0 to |rs|
        invariant sum + SumOf(rs[i..]) == SumOf(rs)
      {
        sum := sum + rs[i].Bytecount();
      }
      SumIsCardinality(btree);
    }
  }
}
