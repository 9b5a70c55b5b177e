/** Moving one file: copy, check, repair, check again, and only then delete the source. */
module Mover {
  import opened Common
  import opened Ranges
  import opened ByteRangeSets
  import opened RangedHashes
  import opened Contents

  datatype RpcError = Failed | NotThere | HashMismatch

  datatype MoveError = Rpc(error: RpcError) | FailedToSync

  /** The calls that matter for safety, with what the destination holds when they are made. */
  datatype Call =
    | Finished
    | Delete(partial: Option<Content>, whole: Option<Content>)

  function Base(p: Option<Content>): Content {
    match p
    case None => []
    case Some(b) => b
  }

  /**
   * The source, which does not change, and the destination, with its partial and its final form.
   * Every call may fail, and may then have had any effect.
   */
  class Ends {
    const source: Content
    var partial: Option<Content>
    var whole: Option<Content>
    ghost var calls: seq<Call>
    ghost var failed: bool
    var counted: nat

    constructor (source: Content, partial: Option<Content>, whole: Option<Content>)
      ensures this.source == source && this.partial == partial && this.whole == whole
      ensures calls == [] && !failed && counted == |Base(Resolved())|
    {
      this.source, this.partial, this.whole := source, partial, whole;
      calls, failed := [], false;
      counted := if partial.Some? then |partial.value| else |Base(whole)|;
    }

    /** The partial form is preferred. */
    function Resolved(): Option<Content>
      reads this
    {
      if partial.Some? then partial else whole
    }

    // -------------------------------------------------------------------
    // Calls
    // -------------------------------------------------------------------

    method Read(range: ByteRange) returns (r: Result<Content, RpcError>)
      modifies this`failed
      ensures r.Ok? ==> r.value == Padded(source, range) && failed == old(failed)
      ensures r.Err? ==> failed
    {
      if * {
        failed := true;
        return Err(Failed);
      }
      r := Ok(Padded(source, range));
    }

    method Send(range: ByteRange, data: Content) returns (r: Result<(), RpcError>)
      modifies this`partial, this`failed
      ensures r.Ok? ==> partial == Some(Overlay(Base(old(partial)), range.start, data)) && failed == old(failed)
      ensures r.Err? ==> failed
    {
      if * {
        partial, failed := *, true;
        return Err(Failed);
      }
      partial := Some(Overlay(Base(partial), range.start, data));
      r := Ok(());
    }

    method Truncate(size: nat) returns (r: Result<(), RpcError>)
      modifies this`partial, this`failed
      ensures r.Ok? ==> failed == old(failed)
      ensures r.Ok? ==>
                partial == Some(if |Base(old(partial))| > size then Base(old(partial))[..size] else Base(old(partial)))
      ensures r.Err? ==> failed
    {
      if * {
        partial, failed := *, true;
        return Err(Failed);
      }
      partial := Some(if |Base(partial)| > size then Base(partial)[..size] else Base(partial));
      r := Ok(());
    }

    method HashSource(range: ByteRange) returns (r: Result<Hash, RpcError>)
      modifies this`failed
      ensures r.Ok? ==> r.value == HashAt(source, range) && failed == old(failed)
      ensures r.Err? ==> failed
    {
      if * {
        failed := true;
        return Err(Failed);
      }
      r := Ok(HashAt(source, range));
    }

    method HashDestination(range: ByteRange) returns (r: Result<Hash, RpcError>)
      modifies this`failed
      ensures r.Ok? ==> Resolved().Some? && r.value == HashAt(Resolved().value, range) && failed == old(failed)
      ensures r.Err? ==> failed || Resolved().None?
    {
      if Resolved().None? {
        return Err(NotThere);
      }
      if * {
        failed := true;
        return Err(Failed);
      }
      r := Ok(HashAt(Resolved().value, range));
    }

    /** The destination's signature and the source's difference from it; the delta is not looked into. */
    method Difference(range: ByteRange) returns (r: Result<Hash, RpcError>)
      modifies this`failed
      ensures r.Ok? ==> r.value == Digest(Padded(source, range)) && failed == old(failed)
      ensures r.Err? ==> failed || Resolved().None?
    {
      if Resolved().None? {
        return Err(NotThere);
      }
      if * {
        failed := true;
        return Err(Failed);
      }
      r := Ok(Digest(Padded(source, range)));
    }

    /** Applies a delta, if that gives the expected hash; the partial form is there afterwards in any case. */
    method ApplyDelta(range: ByteRange, hash: Hash) returns (r: Result<(), RpcError>)
      modifies this`partial, this`failed
      ensures r.Ok? ==>
                hash.Digest? && partial == Some(Overlay(Base(old(partial)), range.start, hash.content)) &&
                  failed == old(failed)
      ensures r == Err(HashMismatch) ==> partial == Some(Base(old(partial))) && failed == old(failed)
      ensures r.Err? && r.error != HashMismatch ==> failed
    {
      if * {
        partial, failed := *, true;
        return Err(Failed);
      }
      var mismatch := *;
      if mismatch || hash.Zero? {
        partial := Some(Base(partial));
        return Err(HashMismatch);
      }
      partial := Some(Overlay(Base(partial), range.start, hash.content));
      r := Ok(());
    }

    method Finish() returns (r: Result<(), RpcError>)
      modifies this`partial, this`whole, this`calls, this`failed
      ensures r.Ok? ==>
                partial.None? && whole == old(Resolved()) && whole.Some? && calls == old(calls) + [Finished] &&
                  failed == old(failed)
      ensures r.Err? ==> calls == old(calls) && (failed || old(Resolved()).None?)
    {
      if Resolved().None? {
        return Err(NotThere);
      }
      if * {
        partial, whole, failed := *, *, true;
        return Err(Failed);
      }
      if partial.Some? {
        whole, partial := partial, None;
      }
      calls := calls + [Finished];
      r := Ok(());
    }

    method DeleteSource() returns (r: Result<(), RpcError>)
      modifies this`calls, this`failed
      ensures calls == old(calls) + [Delete(partial, whole)]
      ensures r.Ok? ==> failed == old(failed)
      ensures r.Err? ==> failed
    {
      calls := calls + [Delete(partial, whole)];
      if * {
        failed := true;
        return Err(Failed);
      }
      r := Ok(());
    }
  }

  // ---------------------------------------------------------------------
  // Copying and patching
  // ---------------------------------------------------------------------

  /** The number of bytes in all chunks together. */
  function Amount(cs: seq<ByteRange>): nat {
    if cs == [] then 0 else Amount(cs[..|cs| - 1]) + cs[|cs| - 1].Bytecount()
  }

  lemma {:induction false} AmountIsSum(cs: seq<ByteRange>)
    ensures Amount(cs) == SumOf(cs)
  {
    if cs != [] {
      var n := |cs| - 1;
      AmountIsSum(cs[..n]);
      SumConcat(cs[..n], [cs[n]]);
      assert cs == cs[..n] + [cs[n]];
      assert SumOf([cs[n]]) == cs[n].Bytecount();
    }
  }

  /** The chunks of `b`, all of them parts of a file of that size. */
  ghost predicate ChunksWithin(b: Boundaries, size: nat, cs: seq<ByteRange>) {
    && Tiling(cs, 0, size, CHUNK_SIZE)
    && (forall x: nat :: InSome(cs, x) <==> Covers(b, x))
    && Amount(cs) == |Bytes(b)|
  }

  /** The chunks one after the other, in order. */
  method ListChunks(b: Boundaries, ghost size: u64) returns (cs: seq<ByteRange>)
    requires WellFormed(b) && AllBelow(b, size) && size + CHUNK_SIZE <= U64_MAX
    ensures ChunksWithin(b, size, cs)
  {
    LastIsBelow(b, size);
    RangesFit(b, CHUNK_SIZE, size);
    AllChunksTile(b, CHUNK_SIZE, size);
    SumIsCardinality(b);
    AmountIsSum(AllChunks(RangesOf(b), CHUNK_SIZE));
    forall x: nat ensures InSome(AllChunks(RangesOf(b), CHUNK_SIZE), x) <==> Covers(b, x) {
      AllChunksCover(b, CHUNK_SIZE, x);
    }
    cs := AllChunks(RangesOf(b), CHUNK_SIZE);
  }

  method CopyChunk(ends: Ends, c: ByteRange) returns (r: Result<(), RpcError>)
    modifies ends`partial, ends`failed, ends`counted
    ensures r.Err? ==> ends.failed
    ensures r.Ok? ==>
              && ends.failed == old(ends.failed) && ends.counted == old(ends.counted) + c.Bytecount()
              && ends.partial == Some(Overlay(Base(old(ends.partial)), c.start, Padded(ends.source, c)))
  {
    var data := ends.Read(c);
    if data.Err? {
      return Err(data.error);
    }
    var sent := ends.Send(c, data.value);
    if sent.Err? {
      return Err(sent.error);
    }
    ends.counted := ends.counted + c.Bytecount();
    r := Ok(());
  }

  method CopyFileRange(ends: Ends, ranges: ByteRanges) returns (r: Result<(), RpcError>, ghost ws: seq<ByteRange>)
    requires ranges.Valid() && AllBelow(ranges.btree, |ends.source|) && |ends.source| + CHUNK_SIZE <= U64_MAX
    modifies ends`partial, ends`failed, ends`counted
    ensures r.Err? ==> ends.failed
    ensures ChunksWithin(ranges.btree, |ends.source|, ws)
    ensures r.Ok? ==>
              && ends.failed == old(ends.failed)
              && Base(ends.partial) == Written(Base(old(ends.partial)), ends.source, ws)
              && (if ws == [] then ends.partial == old(ends.partial) else ends.partial.Some?)
              && ends.counted == old(ends.counted) + |Bytes(ranges.btree)|
  {
    var cs := ListChunks(ranges.btree, |ends.source|);
    ws := cs;
    r := CopyChunks(ends, cs);
  }

  lemma CopiedOne(p: Content, source: Content, cs: seq<ByteRange>, i: nat)
    requires i < |cs|
    ensures Written(p, source, cs[..i + 1]) == Overlay(Written(p, source, cs[..i]), cs[i].start, Padded(source, cs[i]))
    ensures Amount(cs[..i + 1]) == Amount(cs[..i]) + cs[i].Bytecount()
  {
    assert cs[..i + 1][..i] == cs[..i];
  }

  method CopyChunks(ends: Ends, cs: seq<ByteRange>) returns (r: Result<(), RpcError>)
    modifies ends`partial, ends`failed, ends`counted
    ensures r.Err? ==> ends.failed
    ensures r.Ok? ==>
              && ends.failed == old(ends.failed)
              && Base(ends.partial) == Written(Base(old(ends.partial)), ends.source, cs)
              && (if cs == [] then ends.partial == old(ends.partial) else ends.partial.Some?)
              && ends.counted == old(ends.counted) + Amount(cs)
  {
    ghost var p := Base(ends.partial);
    for i := 0 to |cs|
      invariant Base(ends.partial) == Written(p, ends.source, cs[..i])
      invariant if i == 0 then ends.partial == old(ends.partial) else ends.partial.Some?
      invariant ends.failed == old(ends.failed) && ends.counted == old(ends.counted) + Amount(cs[..i])
    {
      CopiedOne(p, ends.source, cs, i);
      var copied := CopyChunk(ends, cs[i]);
      if copied.Err? {
        return copied;
      }
    }
    assert cs[..|cs|] == cs;
    r := Ok(());
  }

  lemma AddedCount(b: Boundaries, r: ByteRange)
    requires WellFormed(b) && r.start < r.end && forall x: nat | r.Contains(x) :: !Covers(b, x)
    ensures |Bytes(Added(b, r))| == |Bytes(b)| + r.Bytecount()
  {
    AddedIsExact(b, r);
    IntervalSize(r.start, r.end);
    CoveredBytes(b);
    CoveredBytes(Added(b, r));
    assert Bytes(Added(b, r)) == Bytes(b) + Interval(r.start, r.end);
  }

  lemma NotYetCovered(cs: seq<ByteRange>, size: nat, i: nat, x: nat)
    requires Tiling(cs, 0, size, CHUNK_SIZE) && i < |cs| && cs[i].Contains(x)
    ensures !InSome(cs[..i], x)
  {
  }

  lemma OneMore(cs: seq<ByteRange>, i: nat, x: nat)
    requires i < |cs|
    ensures InSome(cs[..i + 1], x) <==> InSome(cs[..i], x) || cs[i].Contains(x)
    ensures Amount(cs[..i + 1]) == Amount(cs[..i]) + cs[i].Bytecount()
  {
    assert cs[..i + 1] == cs[..i] + [cs[i]];
    InSomeConcat(cs[..i], [cs[i]], x);
    InSomeSingle(cs[i], x);
    assert cs[..i + 1][..i] == cs[..i];
  }

  /** `cs`, in order, dealt out into those written and those left to copy. */
  ghost predicate Dealt(cs: seq<ByteRange>, ws: seq<ByteRange>, ls: seq<ByteRange>)
    decreases |cs|
  {
    if cs == [] then ws == [] && ls == []
    else
      var n := |cs| - 1;
      || (ws != [] && ws[|ws| - 1] == cs[n] && Dealt(cs[..n], ws[..|ws| - 1], ls))
      || (ls != [] && ls[|ls| - 1] == cs[n] && Dealt(cs[..n], ws, ls[..|ls| - 1]))
  }

  lemma DealtOne(cs: seq<ByteRange>, c: ByteRange, ws: seq<ByteRange>, ls: seq<ByteRange>)
    requires Dealt(cs, ws, ls)
    ensures Dealt(cs + [c], ws + [c], ls) && Dealt(cs + [c], ws, ls + [c])
  {
    assert (cs + [c])[..|cs|] == cs && (ws + [c])[..|ws|] == ws && (ls + [c])[..|ls|] == ls;
  }

  lemma {:induction false} DealtCounts(cs: seq<ByteRange>, ws: seq<ByteRange>, ls: seq<ByteRange>, x: nat)
    requires Dealt(cs, ws, ls)
    ensures Amount(ws) + Amount(ls) == Amount(cs)
    ensures InSome(cs, x) <==> InSome(ws, x) || InSome(ls, x)
    decreases |cs|
  {
    if cs != [] {
      var n, k, l := |cs| - 1, |ws| - 1, |ls| - 1;
      LastCounts(cs, x);
      if ws != [] && ws[k] == cs[n] && Dealt(cs[..n], ws[..k], ls) {
        DealtCounts(cs[..n], ws[..k], ls, x);
        LastCounts(ws, x);
      } else {
        DealtCounts(cs[..n], ws, ls[..l], x);
        LastCounts(ls, x);
      }
    }
  }

  lemma LastCounts(cs: seq<ByteRange>, x: nat)
    requires cs != []
    ensures var n := |cs| - 1;
            && Amount(cs) == Amount(cs[..n]) + cs[n].Bytecount()
            && (InSome(cs, x) <==> InSome(cs[..n], x) || cs[n].Contains(x))
  {
    OneMore(cs, |cs| - 1, x);
    assert cs[..|cs|] == cs;
  }

  lemma {:induction false} DealtMembers(cs: seq<ByteRange>, ws: seq<ByteRange>, ls: seq<ByteRange>, c: ByteRange)
    requires Dealt(cs, ws, ls) && (c in ws || c in ls)
    ensures c in cs
    decreases |cs|
  {
    var n, k, l := |cs| - 1, |ws| - 1, |ls| - 1;
    if c != cs[n] {
      if ws != [] && ws[k] == cs[n] && Dealt(cs[..n], ws[..k], ls) {
        assert c in ws ==> c in ws[..k];
        DealtMembers(cs[..n], ws[..k], ls, c);
      } else {
        assert c in ls ==> c in ls[..l];
        DealtMembers(cs[..n], ws, ls[..l], c);
      }
    }
  }

  lemma TilingInit(cs: seq<ByteRange>, size: nat)
    requires Tiling(cs, 0, size, CHUNK_SIZE) && cs != []
    ensures Tiling(cs[..|cs| - 1], 0, size, CHUNK_SIZE)
  {
  }

  lemma {:induction false} DealtTiling(cs: seq<ByteRange>, size: nat, ws: seq<ByteRange>, ls: seq<ByteRange>)
    requires Dealt(cs, ws, ls) && Tiling(cs, 0, size, CHUNK_SIZE)
    ensures Tiling(ls, 0, size, CHUNK_SIZE)
    decreases |cs|
  {
    if cs != [] {
      var n, k, l := |cs| - 1, |ws| - 1, |ls| - 1;
      TilingInit(cs, size);
      if ws != [] && ws[k] == cs[n] && Dealt(cs[..n], ws[..k], ls) {
        DealtTiling(cs[..n], size, ws[..k], ls);
      } else {
        DealtTiling(cs[..n], size, ws, ls[..l]);
        forall i | 0 <= i < l ensures ls[i].end <= ls[l].start {
          assert ls[..l][i] == ls[i];
          DealtMembers(cs[..n], ws, ls[..l], ls[i]);
        }
        assert ls == ls[..l] + [ls[l]];
      }
    }
  }

  lemma {:induction false} AddedAllCount(ls: seq<ByteRange>, size: nat)
    requires Tiling(ls, 0, size, CHUNK_SIZE)
    ensures |Bytes(AddedAll([], ls))| == Amount(ls)
  {
    AddedAllIsExact([], ls);
    if ls == [] {
      CoveredBytes([]);
      assert Bytes([]) == {};
    } else {
      var n := |ls| - 1;
      TilingInit(ls, size);
      AddedAllCount(ls[..n], size);
      LastCounts(ls, 0);
      AddedAllIsExact([], ls[..n]);
      forall x: nat | ls[n].Contains(x) ensures !Covers(AddedAll([], ls[..n]), x) {
        NotYetCovered(ls, size, n, x);
      }
      AddedCount(AddedAll([], ls[..n]), ls[n]);
    }
  }

  /** Whether the delta could be applied; if not, the partial form is there now, at least. */
  method RsyncChunk(ends: Ends, c: ByteRange) returns (r: Result<bool, RpcError>)
    modifies ends`partial, ends`failed, ends`counted
    ensures r.Err? ==> ends.failed || old(ends.Resolved()).None?
    ensures r.Ok? ==> ends.failed == old(ends.failed) && ends.partial.Some?
    ensures r == Ok(true) ==>
              && Base(ends.partial) == Overlay(Base(old(ends.partial)), c.start, Padded(ends.source, c))
              && ends.counted == old(ends.counted) + c.Bytecount()
    ensures r == Ok(false) ==> Base(ends.partial) == Base(old(ends.partial)) && ends.counted == old(ends.counted)
  {
    var hash := ends.Difference(c);
    if hash.Err? {
      return Err(hash.error);
    }
    var applied := ends.ApplyDelta(c, hash.value);
    if applied.Ok? {
      ends.counted := ends.counted + c.Bytecount();
      return Ok(true);
    }
    if applied.error == HashMismatch {
      return Ok(false);
    }
    r := Err(applied.error);
  }

  /** The chunks `cs` so far: what was written over `p`, what is left to copy, and the count. */
  ghost predicate Synced(cs: seq<ByteRange>, ws: seq<ByteRange>, ls: seq<ByteRange>, p: Content, now: Content,
                         source: Content,
                         left: Boundaries, count: int)
  {
    && Dealt(cs, ws, ls) && WellFormed(left) && left == AddedAll([], ls)
    && now == Written(p, source, ws) && count == Amount(ws)
  }

  lemma SyncedWrite(cs: seq<ByteRange>, ws: seq<ByteRange>, ls: seq<ByteRange>, p: Content, now: Content,
                    source: Content,
                    left: Boundaries, count: int, c: ByteRange)
    requires Synced(cs, ws, ls, p, now, source, left, count)
    ensures Synced(cs + [c], ws + [c], ls, p, Overlay(now, c.start, Padded(source, c)), source, left,
                count + c.Bytecount())
  {
    DealtOne(cs, c, ws, ls);
    WrittenOnce(p, source, ws, c);
    AmountOnce(ws, c);
  }

  lemma SyncedLeave(cs: seq<ByteRange>, ws: seq<ByteRange>, ls: seq<ByteRange>, p: Content, now: Content,
                    source: Content,
                    left: Boundaries, count: int, c: ByteRange)
    requires Synced(cs, ws, ls, p, now, source, left, count)
    ensures Synced(cs + [c], ws, ls + [c], p, now, source, Added(left, c), count)
  {
    DealtOne(cs, c, ws, ls);
    AddedIsExact(left, c);
    AddedOnce(ls, c);
  }

  lemma SomeChunk(b: Boundaries, size: nat, cs: seq<ByteRange>)
    requires WellFormed(b) && ChunksWithin(b, size, cs)
    ensures b != [] <==> cs != []
  {
    if b != [] {
      FirstPair(b);
      assert Covers(b, b[0].at);
    }
    if cs != [] {
      InSomeConcat([cs[0]], cs[1..], cs[0].start);
      InSomeSingle(cs[0], cs[0].start);
      assert cs == [cs[0]] + cs[1..];
    }
  }

  lemma AddedOnce(ls: seq<ByteRange>, c: ByteRange)
    ensures AddedAll([], ls + [c]) == Added(AddedAll([], ls), c)
  {
    assert (ls + [c])[..|ls|] == ls;
  }

  lemma AmountOnce(ws: seq<ByteRange>, c: ByteRange)
    ensures Amount(ws + [c]) == Amount(ws) + c.Bytecount()
  {
    assert (ws + [c])[..|ws|] == ws;
  }

  method RsyncOne(ends: Ends, cs: seq<ByteRange>, i: nat, fallback: ByteRanges, ghost p: Content, ghost count: int,
                  ghost ws: seq<ByteRange>, ghost ls: seq<ByteRange>)
    returns (r: Result<(), RpcError>, ghost ws1: seq<ByteRange>, ghost ls1: seq<ByteRange>)
    requires i < |cs|
    requires Synced(cs[..i], ws, ls, p, Base(ends.partial), ends.source, fallback.btree, ends.counted - count)
    modifies ends`partial, ends`failed, ends`counted, fallback
    ensures fallback.Valid()
    ensures r.Err? ==> ends.failed || old(ends.Resolved()).None?
    ensures r.Ok? ==> ends.failed == old(ends.failed) && ends.partial.Some?
    ensures r.Ok? ==>
              Synced(cs[..i + 1], ws1, ls1, p, Base(ends.partial), ends.source, fallback.btree, ends.counted - count)
  {
    SyncedWrite(cs[..i], ws, ls, p, Base(ends.partial), ends.source, fallback.btree, ends.counted - count, cs[i]);
    SyncedLeave(cs[..i], ws, ls, p, Base(ends.partial), ends.source, fallback.btree, ends.counted - count, cs[i]);
    assert cs[..i + 1] == cs[..i] + [cs[i]];
    ws1, ls1 := ws, ls;
    var done := RsyncChunk(ends, cs[i]);
    if done.Err? {
      return Err(done.error), ws1, ls1;
    }
    if done.value {
      ws1 := ws + [cs[i]];
    } else {
      fallback.Add(cs[i]);
      ls1 := ls + [cs[i]];
    }
    r := Ok(());
  }

  method RsyncChunks(ends: Ends, cs: seq<ByteRange>, fallback: ByteRanges)
    returns (r: Result<(), RpcError>, ghost ws: seq<ByteRange>, ghost ls: seq<ByteRange>)
    requires fallback.btree == []
    modifies ends`partial, ends`failed, ends`counted, fallback
    ensures r.Err? ==> ends.failed || (cs != [] && old(ends.Resolved()).None?)
    ensures fallback.Valid()
    ensures r.Ok? ==>
              && ends.failed == old(ends.failed)
              && Synced(cs, ws, ls, Base(old(ends.partial)), Base(ends.partial), ends.source, fallback.btree,
                   ends.counted - old(ends.counted))
              && (if cs == [] then ends.partial == old(ends.partial) else ends.partial.Some?)
  {
    ghost var p, count := Base(ends.partial), ends.counted;
    ws, ls := [], [];
    for i := 0 to |cs|
      invariant ends.failed == old(ends.failed)
      invariant Synced(cs[..i], ws, ls, p, Base(ends.partial), ends.source, fallback.btree, ends.counted - count)
      invariant if i == 0 then ends.partial == old(ends.partial) else ends.partial.Some?
    {
      r, ws, ls := RsyncOne(ends, cs, i, fallback, p, count, ws, ls);
      if r.Err? {
        return;
      }
    }
    assert cs[..|cs|] == cs;
    r := Ok(());
  }

  method RsyncFileRange(ends: Ends, ranges: ByteRanges, fallback: ByteRanges)
    returns (r: Result<(), RpcError>, ghost ws: seq<ByteRange>)
    requires ranges.Valid() && AllBelow(ranges.btree, |ends.source|) && |ends.source| + CHUNK_SIZE <= U64_MAX
    requires fallback != ranges && fallback.btree == []
    modifies ends`partial, ends`failed, ends`counted, fallback
    ensures r.Err? ==> ends.failed || (ranges.btree != [] && old(ends.Resolved()).None?)
    ensures fallback.Valid()
    ensures r.Ok? ==>
              && ends.failed == old(ends.failed)
              && Base(ends.partial) == Written(Base(old(ends.partial)), ends.source, ws)
              && (if ranges.btree == [] then ends.partial == old(ends.partial) else ends.partial.Some?)
              && Shared(ranges.btree, |ends.source|, ws, fallback.btree)
              && ends.counted + |Bytes(fallback.btree)| == old(ends.counted) + |Bytes(ranges.btree)|
  {
    var cs := ListChunks(ranges.btree, |ends.source|);
    SomeChunk(ranges.btree, |ends.source|, cs);
    ghost var ls;
    r, ws, ls := RsyncChunks(ends, cs, fallback);
    if r.Ok? {
      DealtShares(ranges.btree, |ends.source|, cs, ws, ls);
    }
  }

  /** Every byte of `b` is written or left, and all of them are within the file. */
  ghost predicate Shared(b: Boundaries, size: nat, ws: seq<ByteRange>, left: Boundaries) {
    && (forall c | c in ws :: c.start < c.end <= size)
    && (forall x: nat :: InSome(ws, x) || Covers(left, x) <==> Covers(b, x))
  }

  lemma DealtShares(b: Boundaries, size: nat, cs: seq<ByteRange>, ws: seq<ByteRange>, ls: seq<ByteRange>)
    requires WellFormed(b) && ChunksWithin(b, size, cs) && Dealt(cs, ws, ls)
    ensures Shared(b, size, ws, AddedAll([], ls))
    ensures Amount(ws) + |Bytes(AddedAll([], ls))| == |Bytes(b)|
  {
    DealtTiling(cs, size, ws, ls);
    AddedAllCount(ls, size);
    AddedAllIsExact([], ls);
    DealtCounts(cs, ws, ls, 0);
    forall x: nat ensures InSome(ws, x) || InSome(ls, x) <==> InSome(cs, x) {
      DealtCounts(cs, ws, ls, x);
    }
    forall c | c in ws ensures c in cs {
      DealtMembers(cs, ws, ls, c);
    }
  }

  // ---------------------------------------------------------------------
  // Checking
  // ---------------------------------------------------------------------

  method HashChunk(ends: Ends, ofSource: bool, c: ByteRange) returns (r: Result<Hash, RpcError>)
    modifies ends`failed
    ensures r.Err? ==> ends.failed || (!ofSource && ends.Resolved().None?)
    ensures r.Ok? ==> ends.failed == old(ends.failed) && (ofSource || ends.Resolved().Some?)
    ensures r.Ok? ==> r.value == HashAt(if ofSource then ends.source else Base(ends.Resolved()), c)
  {
    var h;
    if ofSource {
      h := ends.HashSource(c);
    } else {
      h := ends.HashDestination(c);
    }
    r := if h.Ok? then Ok(h.value) else Err(h.error);
  }

  /** The entries of `all` but those at `left`, in order. */
  ghost predicate AllBut(all: seq<Entry>, left: set<nat>, hs: seq<Entry>) {
    && Strict(hs) && |hs| + |left| == |all|
    && forall x :: x in hs <==> exists i: nat | i < |all| :: i !in left && all[i] == x
  }

  lemma AllButOne(all: seq<Entry>, left: set<nat>, hs: seq<Entry>, i: nat)
    requires Strict(all) && AllBut(all, left, hs) && i in left && i < |all|
    ensures AllBut(all, left - {i}, Insert(hs, all[i]))
  {
    forall x | x in hs ensures x.range.start != all[i].range.start {
      var j: nat :| j < |all| && j !in left && all[j] == x;
      assert j < i || i < j;
    }
    InsertedStrict(hs, all[i]);
    InsertedLength(hs, all[i]);
    forall x ensures x in Insert(hs, all[i]) <==> exists j: nat | j < |all| :: j !in left - {i} && all[j] == x {
      InsertedMember(hs, all[i], x);
    }
  }

  lemma AllButNone(all: seq<Entry>, hs: seq<Entry>)
    requires Strict(all) && AllBut(all, {}, hs)
    ensures hs == all
  {
    forall x ensures x in hs <==> x in all {
    }
    SameEntries(hs, all);
  }

  predicate IsIndex(i: nat, n: nat) {
    i < n
  }

  function UpTo(n: nat): set<nat> {
    set i: nat | i < n && IsIndex(i, n)
  }

  lemma {:induction false} UpToSize(n: nat)
    ensures |UpTo(n)| == n
  {
    if n > 0 {
      UpToSize(n - 1);
      assert UpTo(n) == UpTo(n - 1) + {n - 1};
    }
  }

  /** Hashes all chunks; the answers may come in any order. */
  method HashFile(ends: Ends, ofSource: bool, size: u64) returns (r: Result<RangedHash, RpcError>)
    requires size + HASH_FILE_CHUNK <= U64_MAX
    modifies ends`failed
    ensures r.Err? ==> ends.failed || (size > 0 && !ofSource && ends.Resolved().None?)
    ensures r.Ok? ==> fresh(r.value) && ends.failed == old(ends.failed)
    ensures r.Ok? ==>
              r.value.hashes == HashList(if ofSource then ends.source else Base(ends.Resolved()), FileChunks(size))
  {
    var cs := FileChunks(size);
    ghost var all := HashList(if ofSource then ends.source else Base(ends.Resolved()), cs);
    ChunksFitBelow(ByteRange(0, size), HASH_FILE_CHUNK);
    ChunksTile(ByteRange(0, size), HASH_FILE_CHUNK);
    HashListStrict(if ofSource then ends.source else Base(ends.Resolved()), cs, size);
    var ranged := new RangedHash();
    var left := UpTo(|cs|);
    UpToSize(|cs|);
    while left != {}
      invariant fresh(ranged) && ranged.Valid() && left <= UpTo(|cs|)
      invariant AllBut(all, left, ranged.hashes)
      invariant ends.failed == old(ends.failed)
      decreases |left|
    {
      var i :| i in left;
      var hash := HashChunk(ends, ofSource, cs[i]);
      if hash.Err? {
        return Err(hash.error);
      }
      AllButOne(all, left, ranged.hashes, i);
      ranged.Add(cs[i], hash.value);
      left := left - {i};
    }
    AllButNone(all, ranged.hashes);
    r := Ok(ranged);
  }

  lemma EmptyCoversNothing(b: Boundaries)
    requires WellFormed(b)
    ensures b == [] ==> forall x: nat :: !Covers(b, x)
    ensures b != [] ==> exists x: nat :: Covers(b, x)
  {
    if b != [] {
      FirstPair(b);
      assert Covers(b, b[0].at);
    }
  }

  lemma NoneDiffers(s: Content, t: Content, cs: seq<ByteRange>)
    requires Partition(cs, s)
    ensures AllSame(s, t, cs) <==> forall x: nat :: !InChunk(s, t, cs, x, false)
  {
    if !AllSame(s, t, cs) {
      var i :| 0 <= i < |cs| && !Same(s, t, cs[i]);
      var x: nat := cs[i].start;
      assert cs[i].Contains(x);
      assert InChunk(s, t, cs, x, false);
    }
  }

  lemma SomeFileChunk(s: Content)
    requires |s| + HASH_FILE_CHUNK <= U64_MAX
    ensures FileChunks(|s|) != [] <==> s != []
  {
  }

  /** The outcome of comparing a file's hashes with the source's. */
  ghost predicate ComparedPost(s: Content, t: Content, matches: Boundaries, equal: bool)
    requires |s| + HASH_FILE_CHUNK <= U64_MAX
  {
    && (equal <==> s != [] && AllSame(s, t, FileChunks(|s|)))
    && WellFormed(matches) && forall x: nat :: Covers(matches, x) <==> InChunk(s, t, FileChunks(|s|), x, true)
  }

  method CompareHashes(src: RangedHash, dst: RangedHash, ghost s: Content, ghost t: Content, size: u64)
    returns (matches: ByteRanges, equal: bool)
    requires size == |s| && size + HASH_FILE_CHUNK <= U64_MAX
    requires src.hashes == HashList(s, FileChunks(size)) && dst.hashes == HashList(t, FileChunks(size))
    ensures fresh(matches) && matches.Valid() && ComparedPost(s, t, matches.btree, equal)
  {
    ghost var cs := FileChunks(size);
    FileChunksPartition(s);
    SomeFileChunk(s);
    HashListStrict(s, cs, size);
    HashListStrict(t, cs, size);
    ChunksFitBelow(ByteRange(0, size), HASH_FILE_CHUNK);
    ChunksChain(s, ByteRange(0, size), HASH_FILE_CHUNK);
    ChunksChain(t, ByteRange(0, size), HASH_FILE_CHUNK);
    var srcComplete := src.IsComplete(size);
    var dstComplete := dst.IsComplete(size);
    var mismatches;
    matches, mismatches := src.Diff(dst);
    equal := mismatches.btree == [] && srcComplete && dstComplete;
    forall x: nat
      ensures CoveredBy(HashList(s, cs), HashList(t, cs), x, true) <==> InChunk(s, t, cs, x, true)
      ensures CoveredBy(HashList(s, cs), HashList(t, cs), x, false) <==> InChunk(s, t, cs, x, false)
    {
      CoveredIsInChunk(s, t, cs, size, x, true);
      CoveredIsInChunk(s, t, cs, size, x, false);
    }
    EmptyCoversNothing(mismatches.btree);
    NoneDiffers(s, t, cs);
  }

  /** If all hashes agree, finishes the destination and deletes the source; otherwise, what does agree. */
  method CheckHashesAndDelete(ends: Ends, src: RangedHash) returns (r: Result<Option<ByteRanges>, RpcError>)
    requires |ends.source| + HASH_FILE_CHUNK <= U64_MAX
    requires src.hashes == HashList(ends.source, FileChunks(|ends.source|))
    modifies ends`partial, ends`whole, ends`calls, ends`failed
    ensures r.Err? ==> ends.failed || (ends.source != [] && old(ends.Resolved()).None?)
    ensures r.Ok? ==> ends.failed == old(ends.failed)
    ensures r.Ok? && r.value.Some? ==>
              && fresh(r.value.value) && r.value.value.Valid()
              && ComparedPost(ends.source, Base(old(ends.Resolved())), r.value.value.btree, false)
              && ends.partial == old(ends.partial) && ends.whole == old(ends.whole) && ends.calls == old(ends.calls)
    ensures r.Ok? && r.value.None? ==>
              && ends.source != [] && AllSame(ends.source, Base(old(ends.Resolved())), FileChunks(|ends.source|))
              && ends.calls != old(ends.calls) && ends.partial.None? && ends.whole == old(ends.Resolved())
    ensures ends.calls == old(ends.calls) ||
              (&& ends.source != [] && AllSame(ends.source, Base(old(ends.Resolved())), FileChunks(|ends.source|))
               && old(ends.Resolved()).Some?
               && ends.calls == old(ends.calls) + [Finished] + [Delete(None, old(ends.Resolved()))])
  {
    ghost var t := Base(ends.Resolved());
    var dst := HashFile(ends, false, |ends.source|);
    if dst.Err? {
      return Err(dst.error);
    }
    var matches, equal := CompareHashes(src, dst.value, ends.source, t, |ends.source|);
    if !equal {
      return Ok(Some(matches));
    }
    var finished := ends.Finish();
    if finished.Err? {
      return Err(finished.error);
    }
    var deleted := ends.DeleteSource();
    if deleted.Err? {
      return Err(deleted.error);
    }
    r := Ok(None);
  }

  // ---------------------------------------------------------------------
  // Moving
  // ---------------------------------------------------------------------

  /**
   * When moving is bound to fail though no call does: an empty file never counts as checked, and the
   * repair of a final form, which goes into a new partial form, loses what was right in it.
   */
  ghost predicate WontSync(partial: Option<Content>, whole: Option<Content>, s: Content, cs: seq<ByteRange>) {
    || s == []
    || (&& partial.None? && whole.Some? && |whole.value| == |s|
        && !AllSame(s, whole.value, cs)
        && exists i: nat | i < |cs| :: Same(s, whole.value, cs[i]) && !Recreated(s, whole.value, cs, i))
  }

  const TWO_CHUNKS: nat := 2 * HASH_FILE_CHUNK

  /** Two chunks of ones, and a final form of the same size whose second chunk is wrong. */
  lemma TwoChunksWontSync(s: Content, w: Content)
    requires |s| == |w| == TWO_CHUNKS
    requires forall x: nat | x < TWO_CHUNKS :: s[x] == 1 && w[x] == if x < HASH_FILE_CHUNK then 1 else 0
    ensures WontSync(None, Some(w), s, FileChunks(|s|))
  {
    var cs := FileChunks(|s|);
    var first, second := ByteRange(0, HASH_FILE_CHUNK), ByteRange(HASH_FILE_CHUNK, TWO_CHUNKS);
    assert ChunksOf(second, HASH_FILE_CHUNK) == [second];
    assert cs == [first] + [second];
    assert cs[0] == first && cs[1] == second;
    SameBytesInChunk(s, w, first);
    SameBytesInChunk(s, w, second);
    assert Same(s, w, cs[0]);
    assert s[HASH_FILE_CHUNK] != w[HASH_FILE_CHUNK];
    assert s[0] == 1;
    assert !Recreated(s, w, cs, 0);
  }

  function Preferred(partial: Option<Content>, whole: Option<Content>): Option<Content> {
    if partial.Some? then partial else whole
  }

  /** After copying what is missing and cutting off what is too much. */
  ghost predicate Ready(was: Option<Content>, whole: Option<Content>, s: Content, now: Option<Content>) {
    && |Base(Preferred(now, whole))| <= |s|
    && (s != [] ==> Preferred(now, whole).Some?)
    && (now.None? <==> was.None? && |Base(whole)| == |s|)
  }

  lemma ReadyAfterCopy(was: Option<Content>, whole: Option<Content>, s: Content, ws: seq<ByteRange>,
                       now: Option<Content>)
    requires forall c | c in ws :: Part(s, c)
    requires forall x: nat :: InSome(ws, x) <==> |Base(Preferred(was, whole))| <= x < |s|
    requires Base(now) == Written(Base(was), s, ws) && (if ws == [] then now == was else now.Some?)
    requires |Base(Preferred(was, whole))| <= |s|
    ensures Ready(was, whole, s, now)
  {
    var d := |Base(Preferred(was, whole))|;
    WrittenShapes(Base(was), s, ws);
    if d < |s| {
      assert InSome(ws, |s| - 1);
    } else {
      assert ws == [] by {
        if ws != [] {
          assert Part(s, ws[0]);
          InSomeFirst(ws);
        }
      }
    }
  }

  lemma InSomeFirst(ws: seq<ByteRange>)
    requires ws != [] && ws[0].start < ws[0].end
    ensures InSome(ws, ws[0].start)
  {
  }

  lemma SecondCheck(was: Option<Content>, whole: Option<Content>, s: Content, now: Option<Content>, q: Content,
                    cs: seq<ByteRange>, ws: seq<ByteRange>)
    requires Ready(was, whole, s, now) && s != [] && Partition(cs, s)
    requires !AllSame(s, Base(Preferred(now, whole)), cs)
    requires Repaired(q, Base(now), s, Base(Preferred(now, whole)), cs, ws)
    ensures AllSame(s, q, cs) <==> !WontSync(was, whole, s, cs)
  {
    var t := Base(Preferred(now, whole));
    if now.Some? {
      RepairedInPlace(q, s, t, cs, ws);
    } else {
      forall i: nat | i < |cs|
        ensures Same(s, q, cs[i]) <==> !(Same(s, t, cs[i]) && !Recreated(s, t, cs, i))
      {
        if Same(s, t, cs[i]) {
          RepairedAnew(q, s, t, cs, ws, i);
        } else {
          RepairedChunk(q, [], s, t, cs, ws, i);
        }
      }
    }
  }

  lemma {:induction false} SubsetSize(a: set<nat>, b: set<nat>)
    requires a <= b
    ensures |a| <= |b|
    decreases |a|
  {
    if a != {} {
      var x :| x in a;
      SubsetSize(a - {x}, b - {x});
    }
  }

  lemma BytesWithin(b: Boundaries, size: nat)
    requires WellFormed(b) && AllBelow(b, size)
    ensures |Bytes(b)| <= size
  {
    CoveredBytes(b);
    IntervalSize(0, size);
    SubsetSize(Bytes(b), Interval(0, size));
  }

  lemma BytesBetween(b: Boundaries, start: nat, end: nat)
    requires WellFormed(b) && forall x: nat :: Covers(b, x) <==> start <= x < end
    ensures |Bytes(b)| == if start < end then end - start else 0
  {
    CoveredBytes(b);
    if start < end {
      IntervalSize(start, end);
      assert Bytes(b) == Interval(start, end);
    } else {
      assert Bytes(b) == {};
    }
  }

  lemma ChunksAreParts(b: Boundaries, s: Content, ws: seq<ByteRange>)
    requires ChunksWithin(b, |s|, ws)
    ensures forall c | c in ws :: Part(s, c)
  {
  }

  function Excess(m: nat, n: nat): nat {
    if n < m then m - n else 0
  }

  /** Copies what the destination's size says is missing, and cuts off what is too much. */
  method CopyMissing(ends: Ends) returns (r: Result<(), RpcError>)
    requires |ends.source| + HASH_FILE_CHUNK <= U64_MAX && |Base(ends.Resolved())| <= U64_MAX
    modifies ends`partial, ends`failed, ends`counted
    ensures r.Err? ==> ends.failed
    ensures r.Ok? ==>
              && ends.failed == old(ends.failed)
              && Ready(old(ends.partial), ends.whole, ends.source, ends.partial)
              && ends.counted == old(ends.counted) + Excess(|ends.source|, |Base(old(ends.Resolved()))|)
  {
    var n, d := |ends.source|, |Base(ends.Resolved())|;
    var ranges := new ByteRanges.Single(0, n);
    var existing := new ByteRanges.Single(0, d);
    var missing := ranges.Subtraction(existing);
    BytesBetween(missing.btree, d, n);
    ghost var ws;
    r, ws := CopyFileRange(ends, missing);
    if r.Err? {
      return;
    }
    ChunksAreParts(missing.btree, ends.source, ws);
    if d > n {
      var cut := ends.Truncate(n);
      if cut.Err? {
        return Err(cut.error);
      }
    } else {
      ReadyAfterCopy(old(ends.partial), ends.whole, ends.source, ws, ends.partial);
    }
  }

  /** Every byte of the file is in one chunk, right or wrong. */
  lemma RightOrWrong(s: Content, t: Content, cs: seq<ByteRange>, x: nat)
    requires Partition(cs, s)
    ensures InChunk(s, t, cs, x, false) <==> x < |s| && !InChunk(s, t, cs, x, true)
  {
    if x < |s| {
      assert InSome(cs, x);
      var i :| 0 <= i < |cs| && cs[i].Contains(x);
      forall j | 0 <= j < |cs| && cs[j].Contains(x) ensures j == i {
        OneChunkEach(cs, |s|, i, j, x);
      }
    } else {
      assert !InSome(cs, x);
    }
  }

  lemma RepairIsExact(s: Content, t: Content, base: Content, cs: seq<ByteRange>, wrong: Boundaries,
                      ws: seq<ByteRange>, left: Boundaries, vs: seq<ByteRange>)
    requires forall x: nat :: Covers(wrong, x) <==> InChunk(s, t, cs, x, false)
    requires Shared(wrong, |s|, ws, left) && ChunksWithin(left, |s|, vs)
    ensures Repaired(Written(Written(base, s, ws), s, vs), base, s, t, cs, ws + vs)
  {
    WrittenShapes(base, s, ws);
    ChunksAreParts(left, s, vs);
    WrittenShapes(Written(base, s, ws), s, vs);
    ShapedTwice(Written(Written(base, s, ws), s, vs), Written(base, s, ws), base, s, ws, vs);
    forall x: nat ensures InSome(ws + vs, x) <==> InChunk(s, t, cs, x, false) {
      InSomeConcat(ws, vs, x);
    }
  }

  /** What is not known to be right. */
  method NotCorrect(correct: ByteRanges, size: u64, ghost s: Content, ghost t: Content) returns (wrong: ByteRanges)
    requires size == |s| && size + HASH_FILE_CHUNK <= U64_MAX
    requires correct.Valid() && ComparedPost(s, t, correct.btree, false)
    ensures fresh(wrong) && wrong.Valid() && AllBelow(wrong.btree, size) && |Bytes(wrong.btree)| <= size
    ensures forall x: nat :: Covers(wrong.btree, x) <==> InChunk(s, t, FileChunks(size), x, false)
  {
    var ranges := new ByteRanges.Single(0, size);
    wrong := ranges.Subtraction(correct);
    FileChunksPartition(s);
    forall x: nat ensures Covers(wrong.btree, x) <==> InChunk(s, t, FileChunks(size), x, false) {
      RightOrWrong(s, t, FileChunks(size), x);
    }
    BytesWithin(wrong.btree, size);
  }

  /** Patches what is not known to be right, and copies what cannot be patched. */
  method Repair(ends: Ends, correct: ByteRanges, ghost t: Content)
    returns (r: Result<(), RpcError>, ghost ws: seq<ByteRange>)
    requires |ends.source| + HASH_FILE_CHUNK <= U64_MAX && ends.counted >= |ends.source|
    requires correct.Valid() && ComparedPost(ends.source, t, correct.btree, false)
    modifies ends`partial, ends`failed, ends`counted
    ensures r.Err? ==> ends.failed || (ends.source != [] && old(ends.Resolved()).None?)
    ensures r.Ok? ==>
              && ends.failed == old(ends.failed) && ends.counted == old(ends.counted)
              && Repaired(Base(ends.partial), Base(old(ends.partial)), ends.source, t, FileChunks(|ends.source|), ws)
              && (ends.source != [] ==> ends.partial.Some?)
  {
    ghost var s, cs := ends.source, FileChunks(|ends.source|);
    FileChunksPartition(s);
    var wrong := NotCorrect(correct, |ends.source|, s, t);
    var bytes := wrong.Bytecount();
    ends.counted := ends.counted - bytes;
    var fallback := new ByteRanges();
    ghost var vs;
    r, ws := RsyncFileRange(ends, wrong, fallback);
    if r.Err? {
      NothingWrong(s, wrong.btree);
      return;
    }
    ghost var left := fallback.btree;
    r, vs := CopyFileRange(ends, fallback);
    if r.Ok? {
      RepairIsExact(s, t, Base(old(ends.partial)), cs, wrong.btree, ws, left, vs);
      ws := ws + vs;
      WrongSomewhere(s, t, cs, wrong.btree);
    }
  }

  lemma NothingWrong(s: Content, wrong: Boundaries)
    requires WellFormed(wrong) && AllBelow(wrong, |s|)
    ensures s == [] ==> wrong == []
  {
    EmptyCoversNothing(wrong);
  }

  lemma WrongSomewhere(s: Content, t: Content, cs: seq<ByteRange>, wrong: Boundaries)
    requires Partition(cs, s) && WellFormed(wrong) && (s != [] ==> !AllSame(s, t, cs))
    requires forall x: nat :: Covers(wrong, x) <==> InChunk(s, t, cs, x, false)
    ensures s != [] ==> wrong != []
  {
    NoneDiffers(s, t, cs);
    EmptyCoversNothing(wrong);
  }

  /** Every deletion comes right after a successful finish, with the source's content in the final form. */
  ghost predicate SafeCalls(calls: seq<Call>, source: Content) {
    forall i | 0 <= i < |calls| && calls[i].Delete? ::
      && i > 0 && calls[i - 1] == Finished
      && calls[i].partial.None? && calls[i].whole == Some(source)
  }

  lemma CheckIsSafe(s: Content, t: Option<Content>, calls: seq<Call>)
    requires |s| + HASH_FILE_CHUNK <= U64_MAX && |Base(t)| <= |s| && SafeCalls(calls, s)
    requires s != [] && AllSame(s, Base(t), FileChunks(|s|)) && t.Some?
    ensures SafeCalls(calls + [Finished] + [Delete(None, t)], s) && t == Some(s)
  {
    FileChunksPartition(s);
    AllSameIsEqual(s, t.value, FileChunks(|s|));
  }

  lemma RepairedIsNoLonger(q: Content, base: Content, s: Content, t: Content, cs: seq<ByteRange>, ws: seq<ByteRange>)
    requires Repaired(q, base, s, t, cs, ws) && |base| <= |s|
    ensures |q| <= |s|
  {
  }

  /** The final form has the source's content, the partial form is gone and the source was deleted. */
  ghost predicate Moved(ends: Ends, calls: seq<Call>)
    reads ends
  {
    && ends.partial.None? && ends.whole == Some(ends.source)
    && ends.calls == calls + [Finished] + [Delete(None, Some(ends.source))]
  }

  /** The repair and the second check. */
  method RepairAndCheck(ends: Ends, src: RangedHash, correct: ByteRanges, ghost was: Option<Content>)
    returns (r: Result<(), MoveError>)
    requires |ends.source| + HASH_FILE_CHUNK <= U64_MAX && ends.counted >= |ends.source|
    requires src.hashes == HashList(ends.source, FileChunks(|ends.source|))
    requires correct.Valid() && ComparedPost(ends.source, Base(ends.Resolved()), correct.btree, false)
    requires Ready(was, ends.whole, ends.source, ends.partial) && SafeCalls(ends.calls, ends.source)
    modifies ends`partial, ends`whole, ends`calls, ends`failed, ends`counted
    ensures SafeCalls(ends.calls, ends.source)
    ensures r.Err? && r.error != FailedToSync ==> ends.failed
    ensures r.Ok? ==> Moved(ends, old(ends.calls))
    ensures r == Err(FailedToSync) ==> ends.calls == old(ends.calls)
    ensures r.Ok? || r == Err(FailedToSync) ==>
              && ends.counted == old(ends.counted)
              && (r.Ok? <==> !WontSync(was, old(ends.whole), ends.source, FileChunks(|ends.source|)))
  {
    ghost var s, cs, now, t := ends.source, FileChunks(|ends.source|), ends.partial, Base(ends.Resolved());
    FileChunksPartition(s);
    ghost var ws;
    var repaired;
    repaired, ws := Repair(ends, correct, t);
    if repaired.Err? {
      return Err(Rpc(repaired.error));
    }
    if s != [] {
      SecondCheck(was, ends.whole, s, now, Base(ends.partial), cs, ws);
      RepairedIsNoLonger(Base(ends.partial), Base(now), s, t, cs, ws);
    }
    ghost var again, calls := ends.Resolved(), ends.calls;
    var checked := CheckHashesAndDelete(ends, src);
    if ends.calls != calls {
      CheckIsSafe(s, again, calls);
    }
    if checked.Err? {
      return Err(Rpc(checked.error));
    }
    if checked.value.Some? {
      return Err(FailedToSync);
    }
    r := Ok(());
  }

  /**
   * Moves the file. Whatever fails, the source is deleted only after the destination was finished
   * with the same content. If no call fails, the move succeeds exactly unless `WontSync`, and the
   * bytes counted end up at the source's size, or the destination's if that was longer.
   */
  method MoveFile(ends: Ends) returns (r: Result<(), MoveError>)
    requires |ends.source| + HASH_FILE_CHUNK <= U64_MAX && |Base(ends.Resolved())| <= U64_MAX
    requires ends.calls == [] && !ends.failed && ends.counted == |Base(ends.Resolved())|
    modifies ends`partial, ends`whole, ends`calls, ends`failed, ends`counted
    ensures SafeCalls(ends.calls, ends.source)
    ensures r.Ok? ==> Moved(ends, [])
    ensures r == Err(FailedToSync) ==> ends.calls == []
    ensures r.Ok? ==>
              ends.counted ==
                if |Base(old(ends.Resolved()))| > |ends.source| then |Base(old(ends.Resolved()))| else |ends.source|
    ensures r.Ok? ==> !WontSync(old(ends.partial), old(ends.whole), ends.source, FileChunks(|ends.source|))
    ensures r == Err(FailedToSync) ==>
              WontSync(old(ends.partial), old(ends.whole), ends.source, FileChunks(|ends.source|))
    ensures !ends.failed ==> r.Ok? || r == Err(FailedToSync)
  {
    var copied := CopyMissing(ends);
    var src := HashFile(ends, true, |ends.source|);
    if copied.Err? {
      return Err(Rpc(copied.error));
    }
    if src.Err? {
      return Err(Rpc(src.error));
    }
    ghost var now, calls := ends.Resolved(), ends.calls;
    var checked := CheckHashesAndDelete(ends, src.value);
    if ends.calls != calls {
      CheckIsSafe(ends.source, now, calls);
    }
    if checked.Err? {
      return Err(Rpc(checked.error));
    }
    if checked.value.None? {
      return Ok(());
    }
    r := RepairAndCheck(ends, src.value, checked.value.value, old(ends.partial));
  }
}
