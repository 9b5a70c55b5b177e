/** Byte ranges, and sets of byte offsets kept as a sorted list of boundaries. */
module Ranges {

  const U64_MAX: nat := 0xFFFF_FFFF_FFFF_FFFF

  type u64 = x: nat | x <= U64_MAX witness 0

  /** A closed-open range `[start, end)`; it is empty when `end <= start`. */
  datatype ByteRange = ByteRange(start: u64, end: u64) {
    predicate IsEmpty() {
      end <= start
    }

    function Bytecount(): u64 {
      if start <= end then end - start else 0
    }

    predicate Contains(x: nat) {
      start <= x < end
    }
  }

  datatype Point = Start | End {
    function Reverse(): Point {
      if Start? then End else Start
    }

    function Sign(): int {
      if Start? then 1 else -1
    }
  }

  /** One entry of the sorted map from offset to point. */
  datatype Boundary = Boundary(at: u64, point: Point)

  /** The sorted map, listed in key order. */
  type Boundaries = seq<Boundary>

  ghost predicate Sorted(b: Boundaries) {
    forall i, j | 0 <= i < j < |b| :: b[i].at < b[j].at
  }

  ghost predicate InTurn(b: Boundaries) {
    forall i, j | 0 <= i < j < |b| && j == i + 1 :: b[i].point != b[j].point
  }

  /** Strictly increasing offsets, Start and End in turn. */
  ghost predicate Alternating(b: Boundaries) {
    && Sorted(b)
    && (b != [] ==> b[0].point.Start?)
    && InTurn(b)
  }

  /** Whether the last Start has not been closed. */
  predicate Open(b: Boundaries) {
    b != [] && b[|b| - 1].point.Start?
  }

  /** Points come in turn and every Start is closed. */
  ghost predicate WellFormed(b: Boundaries) {
    Alternating(b) && !Open(b)
  }

  /** Whether offset `x` is in the set that `b` stands for. */
  predicate Covers(b: Boundaries, x: nat) {
    |b| >= 2 && (b[0].at <= x < b[1].at || Covers(b[2..], x))
  }

  lemma FirstPair(b: Boundaries)
    requires WellFormed(b) && b != []
    ensures |b| >= 2 && b[0].point.Start? && b[1].point.End? && b[0].at < b[1].at
    ensures WellFormed(b[2..])
    ensures forall i | 2 <= i < |b| :: b[1].at < b[i].at
  {
    assert |b| >= 2;
    if |b| > 2 {
      assert b[1].point != b[2].point;
    }
  }

  // ---------------------------------------------------------------------
  // Depth: how many more Starts than Ends are at or before an offset
  // ---------------------------------------------------------------------

  function Depth(m: Boundaries, x: nat): int {
    if m == [] then 0
    else (if m[0].at <= x then m[0].point.Sign() else 0) + Depth(m[1..], x)
  }

  function Total(m: Boundaries): int {
    if m == [] then 0 else m[0].point.Sign() + Total(m[1..])
  }

  lemma {:induction false} DepthConcat(m: Boundaries, n: Boundaries, x: nat)
    ensures Depth(m + n, x) == Depth(m, x) + Depth(n, x)
  {
    if m == [] {
      assert m + n == n;
    } else {
      assert (m + n)[1..] == m[1..] + n;
      DepthConcat(m[1..], n, x);
    }
  }

  lemma {:induction false} TotalConcat(m: Boundaries, n: Boundaries)
    ensures Total(m + n) == Total(m) + Total(n)
  {
    if m == [] {
      assert m + n == n;
    } else {
      assert (m + n)[1..] == m[1..] + n;
      TotalConcat(m[1..], n);
    }
  }

  lemma {:induction false} DepthBefore(m: Boundaries, x: nat)
    requires forall i | 0 <= i < |m| :: x < m[i].at
    ensures Depth(m, x) == 0
  {
    if m != [] {
      DepthBefore(m[1..], x);
    }
  }

  lemma {:induction false} DepthAfter(m: Boundaries, x: nat)
    requires forall i | 0 <= i < |m| :: m[i].at <= x
    ensures Depth(m, x) == Total(m)
  {
    if m != [] {
      DepthAfter(m[1..], x);
    }
  }

  lemma TotalLast(m: Boundaries)
    requires m != []
    ensures Total(m) == Total(m[..|m| - 1]) + m[|m| - 1].point.Sign()
  {
    var n := |m| - 1;
    assert m == m[..n] + [m[n]];
    TotalConcat(m[..n], [m[n]]);
  }

  lemma {:induction false} TotalAlternating(b: Boundaries)
    requires Alternating(b)
    ensures Total(b) == if Open(b) then 1 else 0
  {
    if b != [] {
      TotalLast(b);
      TotalAlternating(b[..|b| - 1]);
    }
  }

  /** In a well-formed map the depth is 1 exactly on the covered offsets, else 0. */
  lemma {:induction false} DepthIsCovers(b: Boundaries, x: nat)
    requires WellFormed(b)
    ensures Depth(b, x) == if Covers(b, x) then 1 else 0
  {
    if b != [] {
      FirstPair(b);
      assert b == [b[0], b[1]] + b[2..];
      DepthConcat([b[0], b[1]], b[2..], x);
      DepthIsCovers(b[2..], x);
      if x < b[1].at {
        DepthBefore(b[2..], x);
      }
    }
  }

  // ---------------------------------------------------------------------
  // Canonicity
  // ---------------------------------------------------------------------

  lemma CoversOnlyFrom(b: Boundaries, x: nat)
    requires WellFormed(b) && b != []
    requires x < b[0].at
    ensures !Covers(b, x)
  {
    DepthIsCovers(b, x);
    DepthBefore(b, x);
  }

  lemma GapAfterFirst(b: Boundaries)
    requires WellFormed(b) && b != []
    ensures |b| >= 2 && Covers(b, b[0].at) && !Covers(b, b[1].at)
  {
    FirstPair(b);
    if |b| > 2 {
      CoversOnlyFrom(b[2..], b[1].at);
    }
  }

  ghost predicate SameBytes(a: Boundaries, b: Boundaries) {
    forall x: nat :: Covers(a, x) <==> Covers(b, x)
  }

  /** Two well-formed maps are equal exactly when they stand for the same set. */
  lemma Canonical(a: Boundaries, b: Boundaries)
    requires WellFormed(a) && WellFormed(b)
    ensures a == b <==> SameBytes(a, b)
  {
    if SameBytes(a, b) {
      CanonicalEqual(a, b);
    }
  }

  lemma TailCovers(b: Boundaries, x: nat)
    requires WellFormed(b) && b != []
    ensures |b| >= 2 && (Covers(b[2..], x) <==> b[1].at <= x && Covers(b, x))
  {
    FirstPair(b);
    if |b| > 2 && x < b[1].at {
      CoversOnlyFrom(b[2..], x);
    }
  }

  lemma SameTails(a: Boundaries, b: Boundaries)
    requires WellFormed(a) && WellFormed(b) && SameBytes(a, b)
    requires |a| >= 2 && |b| >= 2 && a[1].at == b[1].at
    ensures SameBytes(a[2..], b[2..])
  {
    forall x: nat ensures Covers(a[2..], x) <==> Covers(b[2..], x) {
      TailCovers(a, x);
      TailCovers(b, x);
    }
  }

  /** The first range of `b` starts, and if it starts equally also ends, no later than that of `a`. */
  lemma FirstRangeBound(a: Boundaries, b: Boundaries)
    requires WellFormed(a) && WellFormed(b) && SameBytes(a, b) && |a| >= 2
    ensures |b| >= 2 && b[0].at <= a[0].at && (b[0].at == a[0].at ==> b[1].at <= a[1].at)
  {
    GapAfterFirst(a);
    assert Covers(b, a[0].at) && !Covers(b, a[1].at);
    if a[0].at < b[0].at {
      CoversOnlyFrom(b, a[0].at);
    }
  }

  lemma {:induction false} CanonicalEqual(a: Boundaries, b: Boundaries)
    requires WellFormed(a) && WellFormed(b)
    requires SameBytes(a, b)
    ensures a == b
  {
    if |a| < 2 && |b| < 2 {
      return;
    }
    if |a| >= 2 { FirstRangeBound(a, b); }
    if |b| >= 2 { FirstRangeBound(b, a); }
    SameTails(a, b);
    FirstPair(a);
    FirstPair(b);
    CanonicalEqual(a[2..], b[2..]);
    assert a == [a[0], a[1]] + a[2..];
    assert b == [b[0], b[1]] + b[2..];
  }

  // ---------------------------------------------------------------------
  // The merged point stream
  // ---------------------------------------------------------------------

  /** The points of both maps in order; a Start and an End at the same offset cancel. */
  function Merged(a: Boundaries, b: Boundaries): Boundaries
    decreases |a| + |b|
  {
    if a == [] then b
    else if b == [] then a
    else if a[0].at == b[0].at && a[0].point != b[0].point then Merged(a[1..], b[1..])
    else if a[0].at < b[0].at then [a[0]] + Merged(a[1..], b)
    else [b[0]] + Merged(a, b[1..])
  }

  /** Ordered by offset, and points that share an offset are of the same kind. */
  ghost predicate Stream(m: Boundaries) {
    forall i, j | 0 <= i < j < |m| ::
      m[i].at <= m[j].at && (m[i].at == m[j].at ==> m[i].point == m[j].point)
  }

  lemma {:induction false} MergedDepth(a: Boundaries, b: Boundaries, x: nat)
    ensures Depth(Merged(a, b), x) == Depth(a, x) + Depth(b, x)
    decreases |a| + |b|
  {
    if a != [] && b != [] {
      if a[0].at == b[0].at && a[0].point != b[0].point {
        MergedDepth(a[1..], b[1..], x);
      } else if a[0].at < b[0].at {
        MergedDepth(a[1..], b, x);
      } else {
        MergedDepth(a, b[1..], x);
      }
    }
  }

  lemma {:induction false} MergedTotal(a: Boundaries, b: Boundaries)
    ensures Total(Merged(a, b)) == Total(a) + Total(b)
    decreases |a| + |b|
  {
    if a != [] && b != [] {
      if a[0].at == b[0].at && a[0].point != b[0].point {
        MergedTotal(a[1..], b[1..]);
      } else if a[0].at < b[0].at {
        MergedTotal(a[1..], b);
      } else {
        MergedTotal(a, b[1..]);
      }
    }
  }

  lemma {:induction false} MergedFrom(a: Boundaries, b: Boundaries, p: Boundary)
    requires p in Merged(a, b)
    ensures p in a || p in b
    decreases |a| + |b|
  {
    if a != [] && b != [] {
      if a[0].at == b[0].at && a[0].point != b[0].point {
        MergedFrom(a[1..], b[1..], p);
      } else if a[0].at < b[0].at {
        if p != a[0] { MergedFrom(a[1..], b, p); }
      } else {
        if p != b[0] { MergedFrom(a, b[1..], p); }
      }
    }
  }

  lemma StreamCons(p: Boundary, m: Boundaries)
    requires Stream(m)
    requires forall q | q in m :: p.at <= q.at && (p.at == q.at ==> p.point == q.point)
    ensures Stream([p] + m)
  {
    var s := [p] + m;
    forall i, j | 0 <= i < j < |s|
      ensures s[i].at <= s[j].at && (s[i].at == s[j].at ==> s[i].point == s[j].point)
    {
      assert s[j] == m[j - 1];
      if i > 0 { assert s[i] == m[i - 1]; }
    }
  }

  lemma {:induction false} MergedStream(a: Boundaries, b: Boundaries)
    requires Sorted(a) && Sorted(b)
    ensures Stream(Merged(a, b))
    decreases |a| + |b|
  {
    if a != [] && b != [] {
      if a[0].at == b[0].at && a[0].point != b[0].point {
        MergedStream(a[1..], b[1..]);
      } else if a[0].at < b[0].at {
        MergedStream(a[1..], b);
        forall q | q in Merged(a[1..], b) ensures a[0].at < q.at {
          MergedFrom(a[1..], b, q);
        }
        StreamCons(a[0], Merged(a[1..], b));
      } else {
        MergedStream(a, b[1..]);
        forall q | q in Merged(a, b[1..])
          ensures b[0].at <= q.at && (b[0].at == q.at ==> b[0].point == q.point)
        {
          MergedFrom(a, b[1..], q);
        }
        StreamCons(b[0], Merged(a, b[1..]));
      }
    }
  }

  // ---------------------------------------------------------------------
  // How deep the sweep can get
  // ---------------------------------------------------------------------

  /** What is left to read of a map whose points come in turn, the first being `first`. */
  ghost predicate Suffix(s: Boundaries, first: Point) {
    && InTurn(s)
    && (s != [] ==> s[|s| - 1].point != first)
  }

  /** What the part already read has contributed to the depth. */
  function Level(s: Boundaries, first: Point): int {
    if s == [] || s[0].point == first then 0 else first.Sign()
  }

  function Low(first: Point): int {
    if first.Start? then 0 else -1
  }

  lemma SuffixTail(s: Boundaries, first: Point)
    requires s != [] && Suffix(s, first)
    ensures Suffix(s[1..], first)
    ensures Level(s, first) + s[0].point.Sign() == Level(s[1..], first)
  {
    if |s| > 1 {
      assert s[0].point != s[1].point;
    }
  }

  /** At every prefix of the merged stream the depth is between the two extremes. */
  lemma {:induction false} PrefixLevel(a: Boundaries, fa: Point, b: Boundaries, fb: Point, k: nat)
    requires Suffix(a, fa) && Suffix(b, fb) && k <= |Merged(a, b)|
    ensures Low(fa) + Low(fb)
         <= Level(a, fa) + Level(b, fb) + Total(Merged(a, b)[..k])
         <= Low(fa) + Low(fb) + 2
    decreases |a| + |b|
  {
    var m := Merged(a, b);
    if k == 0 {
    } else if b == [] || (a != [] && a[0].at < b[0].at) {
      SuffixTail(a, fa);
      assert m == [a[0]] + Merged(a[1..], b);
      assert m[..k] == [a[0]] + Merged(a[1..], b)[..k - 1];
      PrefixLevel(a[1..], fa, b, fb, k - 1);
    } else if a == [] || a[0].at > b[0].at || a[0].point == b[0].point {
      SuffixTail(b, fb);
      assert m == [b[0]] + Merged(a, b[1..]);
      assert m[..k] == [b[0]] + Merged(a, b[1..])[..k - 1];
      PrefixLevel(a, fa, b[1..], fb, k - 1);
    } else {
      SuffixTail(a, fa);
      SuffixTail(b, fb);
      PrefixLevel(a[1..], fa, b[1..], fb, k);
    }
  }

  lemma WellFormedSuffix(b: Boundaries)
    requires WellFormed(b)
    ensures Suffix(b, Start) && Level(b, Start) == 0
  {
  }

  // ---------------------------------------------------------------------
  // What the sweep emits
  // ---------------------------------------------------------------------

  /** The points of `m` at which the depth, starting from `d`, reaches or leaves `level`. */
  function Crossings(m: Boundaries, d: int, level: int): Boundaries {
    if m == [] then []
    else
      var n := |m| - 1;
      var before := Crossings(m[..n], d, level);
      var depth := d + Total(m[..n]);
      if (m[n].point.Start? && depth + 1 == level) || (m[n].point.End? && depth == level)
      then before + [m[n]]
      else before
  }

  lemma {:induction false} CrossingsFrom(m: Boundaries, d: int, level: int, p: Boundary)
    requires p in Crossings(m, d, level)
    ensures p in m
  {
    var n := |m| - 1;
    if p != m[n] {
      CrossingsFrom(m[..n], d, level, p);
    }
  }

  /** The emitted points alternate, and one is open exactly while the level is reached. */
  lemma {:induction false} CrossingsAlternate(m: Boundaries, d: int, level: int)
    requires Stream(m) && d < level
    ensures Alternating(Crossings(m, d, level))
    ensures Open(Crossings(m, d, level)) <==> d + Total(m) >= level
  {
    if m != [] {
      var n := |m| - 1;
      var before := Crossings(m[..n], d, level);
      CrossingsAlternate(m[..n], d, level);
      TotalLast(m);
      if Crossings(m, d, level) != before {
        if before != [] {
          var last := before[|before| - 1];
          CrossingsFrom(m[..n], d, level, last);
          assert last.point != m[n].point;
          assert last.at < m[n].at;
        }
      }
    }
  }

  /** The emitted points stand for exactly the offsets whose depth is at least `level`. */
  lemma {:induction false} CrossingsDepth(m: Boundaries, d: int, level: int, x: nat)
    requires Stream(m) && d < level
    ensures Depth(Crossings(m, d, level), x) == if d + Depth(m, x) >= level then 1 else 0
  {
    if m != [] {
      var n := |m| - 1;
      var c := Crossings(m, d, level);
      if m[n].at <= x {
        CrossingsAlternate(m, d, level);
        DepthAfter(m, x);
        forall i | 0 <= i < |c| ensures c[i].at <= x {
          CrossingsFrom(m, d, level, c[i]);
        }
        DepthAfter(c, x);
        TotalAlternating(c);
      } else {
        CrossingsDepth(m[..n], d, level, x);
        assert m == m[..n] + [m[n]];
        DepthConcat(m[..n], [m[n]], x);
        DepthConcat(Crossings(m[..n], d, level), [m[n]], x);
      }
    }
  }
}
