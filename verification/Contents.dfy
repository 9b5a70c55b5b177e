/** What writing parts of one file over another makes of it, and what hashing its parts tells. */
module Contents {
  import opened Ranges
  import opened ByteRangeSets
  import opened RangedHashes

  type Content = seq<byte>

  const CHUNK_SIZE: u64 := 4 * 1024 * 1024
  const HASH_FILE_CHUNK: u64 := 256 * 1024 * 1024

  // ---------------------------------------------------------------------
  // Writing
  // ---------------------------------------------------------------------

  /** Writes at an offset; a gap before it is filled with zeros. */
  function Overlay(p: Content, start: nat, data: Content): Content {
    var end := start + |data|;
    seq(if end < |p| then |p| else end,
        i requires 0 <= i => if start <= i < end then data[i - start] else if i < |p| then p[i] else 0)
  }

  /** The part of a file in a range, filled with zeros past its end. */
  function Padded(content: Content, r: ByteRange): Content {
    seq(r.Bytecount(), i requires 0 <= i => if r.start + i < |content| then content[r.start + i] else 0)
  }

  ghost predicate Part(s: Content, r: ByteRange) {
    r.start < r.end <= |s|
  }

  lemma PaddedPart(s: Content, r: ByteRange)
    requires Part(s, r)
    ensures Padded(s, r) == s[r.start..r.end]
  {
  }

  /** `p` is `base` with the ranges `ws` of `s` written over it. */
  ghost predicate Shaped(p: Content, base: Content, s: Content, ws: seq<ByteRange>) {
    && |base| <= |p| && (|p| > |base| ==> InSome(ws, |p| - 1))
    && (forall x: nat | InSome(ws, x) :: x < |p| && x < |s|)
    && (forall x: nat | x < |p| :: p[x] == ShapedByte(base, s, ws, x))
  }

  ghost function ShapedByte(base: Content, s: Content, ws: seq<ByteRange>, x: nat): byte {
    if InSome(ws, x) then (if x < |s| then s[x] else 0)
    else if x < |base| then base[x] else 0
  }

  lemma NothingWritten(p: Content, s: Content)
    ensures Shaped(p, p, s, [])
  {
  }

  lemma OverlayShapes(p: Content, s: Content, r: ByteRange)
    requires Part(s, r)
    ensures Shaped(Overlay(p, r.start, s[r.start..r.end]), p, s, [r])
  {
    forall x: nat ensures InSome([r], x) <==> r.Contains(x) {
      InSomeSingle(r, x);
    }
  }

  lemma ShapedTwice(q: Content, p: Content, base: Content, s: Content, ws: seq<ByteRange>, vs: seq<ByteRange>)
    requires Shaped(p, base, s, ws) && Shaped(q, p, s, vs)
    ensures Shaped(q, base, s, ws + vs)
  {
    forall x: nat ensures InSome(ws + vs, x) <==> InSome(ws, x) || InSome(vs, x) {
      InSomeConcat(ws, vs, x);
    }
    if |q| > |base| && |q| == |p| {
      assert InSome(ws, |q| - 1);
    }
  }

  /** The ranges `ws` of `s`, written one after the other over `p`. */
  function Written(p: Content, s: Content, ws: seq<ByteRange>): Content {
    if ws == [] then p
    else
      var last := ws[|ws| - 1];
      Overlay(Written(p, s, ws[..|ws| - 1]), last.start, Padded(s, last))
  }

  lemma WrittenOnce(p: Content, s: Content, ws: seq<ByteRange>, c: ByteRange)
    ensures Written(p, s, ws + [c]) == Overlay(Written(p, s, ws), c.start, Padded(s, c))
  {
    assert (ws + [c])[..|ws|] == ws;
  }

  lemma {:induction false} WrittenShapes(p: Content, s: Content, ws: seq<ByteRange>)
    requires forall c | c in ws :: Part(s, c)
    ensures Shaped(Written(p, s, ws), p, s, ws)
  {
    if ws == [] {
      NothingWritten(p, s);
    } else {
      var rest, last := ws[..|ws| - 1], ws[|ws| - 1];
      WrittenShapes(p, s, rest);
      PaddedPart(s, last);
      OverlayShapes(Written(p, s, rest), s, last);
      ShapedTwice(Written(p, s, ws), Written(p, s, rest), p, s, rest, [last]);
      assert ws == rest + [last];
    }
  }

  // ---------------------------------------------------------------------
  // Hashing
  // ---------------------------------------------------------------------

  /** There is no hash of a range that goes past the end. */
  function HashAt(content: Content, r: ByteRange): Hash {
    if r.end > |content| || r.start > r.end then Zero else Digest(content[r.start..r.end])
  }

  function HashList(content: Content, cs: seq<ByteRange>): seq<Entry> {
    seq(|cs|, i requires 0 <= i < |cs| => Entry(cs[i], HashAt(content, cs[i])))
  }

  function FileChunks(size: u64): seq<ByteRange>
    requires size + HASH_FILE_CHUNK <= U64_MAX
  {
    ChunksFitBelow(ByteRange(0, size), HASH_FILE_CHUNK);
    ChunksOf(ByteRange(0, size), HASH_FILE_CHUNK)
  }

  /** The chunks of the file `s`: in order, without overlap, and all of it. */
  ghost predicate Partition(cs: seq<ByteRange>, s: Content) {
    && Tiling(cs, 0, |s|, HASH_FILE_CHUNK)
    && forall x: nat :: InSome(cs, x) <==> x < |s|
  }

  lemma FileChunksPartition(s: Content)
    requires |s| + HASH_FILE_CHUNK <= U64_MAX
    ensures Partition(FileChunks(|s|), s)
  {
    ChunksFitBelow(ByteRange(0, |s|), HASH_FILE_CHUNK);
    ChunksTile(ByteRange(0, |s|), HASH_FILE_CHUNK);
    forall x: nat ensures InSome(FileChunks(|s|), x) <==> x < |s| {
      ChunksCover(ByteRange(0, |s|), HASH_FILE_CHUNK, x);
    }
  }

  lemma HashListStrict(content: Content, cs: seq<ByteRange>, hi: nat)
    requires Tiling(cs, 0, hi, HASH_FILE_CHUNK)
    ensures Strict(HashList(content, cs))
  {
  }

  lemma {:induction false} ChainedFirst(e: Entry, hs: seq<Entry>, end: nat)
    requires Chained(hs, e.range.end, end)
    ensures Chained([e] + hs, e.range.start, end)
    decreases |hs|
  {
    if hs == [] {
      assert [e] + hs == [e];
      assert [e][..0] == [];
    } else {
      var n := |hs| - 1;
      ChainedFirst(e, hs[..n], hs[n].range.start);
      assert ([e] + hs)[..n + 1] == [e] + hs[..n];
    }
  }

  lemma {:induction false} ChunksChain(content: Content, r: ByteRange, size: u64)
    requires r.start <= r.end && ChunksFit(r, size) && size > 0
    ensures Chained(HashList(content, ChunksOf(r, size)), r.start, r.end)
    decreases r.end - r.start
  {
    if r.start < r.end {
      var end := if r.start + size > r.end then r.end else r.start + size;
      var first, rest := ByteRange(r.start, end), ByteRange(end, r.end);
      ChunksChain(content, rest, size);
      var e := Entry(first, HashAt(content, first));
      assert HashList(content, ChunksOf(r, size)) == [e] + HashList(content, ChunksOf(rest, size));
      ChainedFirst(e, HashList(content, ChunksOf(rest, size)), r.end);
    }
  }

  /** The chunk has the same hash in both files. */
  predicate Same(s: Content, t: Content, c: ByteRange) {
    HashAt(s, c) == HashAt(t, c)
  }

  /** That is to say, the same bytes. */
  lemma SameBytesInChunk(s: Content, t: Content, c: ByteRange)
    requires Part(s, c)
    ensures Same(s, t, c) <==> c.end <= |t| && forall x: nat | c.start <= x < c.end :: s[x] == t[x]
  {
    if Same(s, t, c) {
      forall x: nat | c.start <= x < c.end ensures s[x] == t[x] {
        assert s[c.start..c.end][x - c.start] == t[c.start..c.end][x - c.start];
      }
    }
    if c.end <= |t| && forall x: nat | c.start <= x < c.end :: s[x] == t[x] {
      assert s[c.start..c.end] == t[c.start..c.end];
    }
  }

  /** `x` is in a chunk that is the same in both, or in one that is not. */
  ghost predicate InChunk(s: Content, t: Content, cs: seq<ByteRange>, x: nat, same: bool) {
    exists i | 0 <= i < |cs| :: cs[i].Contains(x) && Same(s, t, cs[i]) == same
  }

  lemma CoveredIsInChunk(s: Content, t: Content, cs: seq<ByteRange>, hi: nat, x: nat, same: bool)
    requires Tiling(cs, 0, hi, HASH_FILE_CHUNK)
    ensures CoveredBy(HashList(s, cs), HashList(t, cs), x, same) <==> InChunk(s, t, cs, x, same)
  {
    var a, b := HashList(s, cs), HashList(t, cs);
    if CoveredBy(a, b, x, same) {
      var i, j :| InBoth(a, b, i, j) && a[i].range.Contains(x) && (a[i].hash == b[j].hash) == same;
      assert cs[i].start < cs[i].end && cs[i] == cs[j];
      assert i == j;
    }
    if InChunk(s, t, cs, x, same) {
      var i :| 0 <= i < |cs| && cs[i].Contains(x) && Same(s, t, cs[i]) == same;
      assert InBoth(a, b, i, i);
    }
  }

  ghost predicate AllSame(s: Content, t: Content, cs: seq<ByteRange>) {
    forall i | 0 <= i < |cs| :: Same(s, t, cs[i])
  }

  lemma SameAtByte(s: Content, t: Content, cs: seq<ByteRange>, x: nat)
    requires Partition(cs, s) && AllSame(s, t, cs) && x < |s|
    ensures x < |t| && s[x] == t[x]
  {
    assert InSome(cs, x);
    var i :| 0 <= i < |cs| && cs[i].Contains(x);
    SameBytesInChunk(s, t, cs[i]);
  }

  /** Equal hashes of all chunks mean equal files, if the second is no longer. */
  lemma AllSameIsEqual(s: Content, t: Content, cs: seq<ByteRange>)
    requires Partition(cs, s) && |s| > 0 && |t| <= |s|
    ensures AllSame(s, t, cs) <==> s == t
  {
    if AllSame(s, t, cs) {
      forall x: nat | x < |s| ensures x < |t| && s[x] == t[x] {
        SameAtByte(s, t, cs, x);
      }
      SameAtByte(s, t, cs, |s| - 1);
      assert |s| == |t|;
    }
  }

  // ---------------------------------------------------------------------
  // Repairing
  // ---------------------------------------------------------------------

  lemma OneChunkEach(cs: seq<ByteRange>, hi: nat, i: nat, j: nat, x: nat)
    requires Tiling(cs, 0, hi, HASH_FILE_CHUNK) && i < |cs| && j < |cs| && cs[i].Contains(x) && cs[j].Contains(x)
    ensures i == j
  {
  }

  /** `q` is `base` with the chunks of `s` written over it in which `t` differed. */
  ghost predicate Repaired(q: Content, base: Content, s: Content, t: Content, cs: seq<ByteRange>, ws: seq<ByteRange>) {
    Shaped(q, base, s, ws) && forall x: nat :: InSome(ws, x) <==> InChunk(s, t, cs, x, false)
  }

  /** A byte of chunk `i` was written exactly if the chunk differed. */
  lemma WrittenInChunk(q: Content, base: Content, s: Content, t: Content, cs: seq<ByteRange>, ws: seq<ByteRange>,
                       i: nat, x: nat)
    requires Partition(cs, s) && Repaired(q, base, s, t, cs, ws) && i < |cs| && cs[i].Contains(x)
    ensures InSome(ws, x) <==> !Same(s, t, cs[i])
  {
    if InSome(ws, x) {
      assert InChunk(s, t, cs, x, false);
      var j :| 0 <= j < |cs| && cs[j].Contains(x) && !Same(s, t, cs[j]);
      OneChunkEach(cs, |s|, i, j, x);
    }
    if !Same(s, t, cs[i]) {
      assert InChunk(s, t, cs, x, false);
    }
  }

  lemma RepairedChunk(q: Content, base: Content, s: Content, t: Content, cs: seq<ByteRange>, ws: seq<ByteRange>, i: nat)
    requires Partition(cs, s) && Repaired(q, base, s, t, cs, ws) && i < |cs| && !Same(s, t, cs[i])
    ensures Same(s, q, cs[i])
  {
    SameBytesInChunk(s, q, cs[i]);
    forall x: nat | cs[i].start <= x < cs[i].end ensures x < |q| && s[x] == q[x] {
      WrittenInChunk(q, base, s, t, cs, ws, i, x);
    }
    var last: nat := cs[i].end - 1;
    assert s[last] == q[last];
  }

  /** If the parts go over the file that was checked, the result is right everywhere. */
  lemma RepairedInPlace(q: Content, s: Content, t: Content, cs: seq<ByteRange>, ws: seq<ByteRange>)
    requires Partition(cs, s) && Repaired(q, t, s, t, cs, ws)
    ensures AllSame(s, q, cs)
  {
    forall i | 0 <= i < |cs| ensures Same(s, q, cs[i]) {
      if Same(s, t, cs[i]) {
        SameBytesInChunk(s, t, cs[i]);
        SameBytesInChunk(s, q, cs[i]);
        forall x: nat | cs[i].start <= x < cs[i].end ensures s[x] == q[x] {
          WrittenInChunk(q, t, s, t, cs, ws, i, x);
        }
      } else {
        RepairedChunk(q, t, s, t, cs, ws, i);
      }
    }
  }

  ghost predicate AllZero(s: Content, c: ByteRange) {
    forall x: nat | c.start <= x < c.end && x < |s| :: s[x] == 0
  }

  /** Some chunk after `i` is different. */
  ghost predicate DiffersLater(s: Content, t: Content, cs: seq<ByteRange>, i: nat) {
    exists j | i < j < |cs| :: !Same(s, t, cs[j])
  }

  /** The chunk comes out right even in a new file: it has nothing but zeros, and more is written after it. */
  ghost predicate Recreated(s: Content, t: Content, cs: seq<ByteRange>, i: nat)
    requires i < |cs|
  {
    AllZero(s, cs[i]) && DiffersLater(s, t, cs, i)
  }

  lemma LongEnough(q: Content, s: Content, t: Content, cs: seq<ByteRange>, ws: seq<ByteRange>, i: nat)
    requires Partition(cs, s) && Repaired(q, [], s, t, cs, ws) && i < |cs| && Same(s, t, cs[i])
    ensures cs[i].end <= |q| <==> DiffersLater(s, t, cs, i)
  {
    if DiffersLater(s, t, cs, i) {
      var j :| i < j < |cs| && !Same(s, t, cs[j]);
      WrittenInChunk(q, [], s, t, cs, ws, j, cs[j].start);
    }
    if cs[i].end <= |q| {
      var x: nat := |q| - 1;
      assert InSome(ws, x);
      assert InChunk(s, t, cs, x, false);
      var j :| 0 <= j < |cs| && cs[j].Contains(x) && !Same(s, t, cs[j]);
      assert j != i;
      assert i < j;
    }
  }

  /** If they go over a new file, a chunk that was right is so again only in that case. */
  lemma RepairedAnew(q: Content, s: Content, t: Content, cs: seq<ByteRange>, ws: seq<ByteRange>, i: nat)
    requires Partition(cs, s) && Repaired(q, [], s, t, cs, ws) && i < |cs| && Same(s, t, cs[i])
    ensures Same(s, q, cs[i]) <==> Recreated(s, t, cs, i)
  {
    LongEnough(q, s, t, cs, ws, i);
    SameBytesInChunk(s, q, cs[i]);
    forall x: nat | cs[i].start <= x < cs[i].end && x < |q| ensures q[x] == 0 {
      WrittenInChunk(q, [], s, t, cs, ws, i, x);
    }
  }
}
