/** Cutting an artifact into chunks, and putting interrupted fetches together again. */
module Chunks {
  import opened Text
  import opened Tables

  const CHUNK_BYTES: nat := 262_144

  datatype Chunk = Chunk(offset: int, data: Bytes, total: int)

  function Joined(chunks: seq<Chunk>): Bytes {
    if chunks == [] then [] else Joined(chunks[..|chunks| - 1]) + chunks[|chunks| - 1].data
  }

  /** Chunks in a row from `offset`, all full but the last, that together are the rest of `bytes`. */
  ghost predicate Cuts(bytes: Bytes, offset: nat, chunks: seq<Chunk>)
    requires offset <= |bytes|
  {
    && chunks != [] && chunks[0].offset == offset
    && Joined(chunks) == bytes[offset..]
    && (forall i :: 0 <= i < |chunks| ==> chunks[i].total == |bytes|)
    && (forall i :: 0 <= i < |chunks| - 1 ==> |chunks[i].data| == CHUNK_BYTES)
    && (forall i :: 0 < i < |chunks| ==> chunks[i].offset == chunks[i - 1].offset + |chunks[i - 1].data|)
    && |chunks[|chunks| - 1].data| <= CHUNK_BYTES
    && (chunks[|chunks| - 1].data == [] <==> offset == |bytes|)
  }

  /** The chunks from `start` up to `cursor`. */
  ghost predicate Partial(bytes: Bytes, start: nat, cursor: nat, chunks: seq<Chunk>)
    requires start <= cursor <= |bytes|
  {
    && Joined(chunks) == bytes[start..cursor]
    && (chunks == [] <==> cursor == start)
    && (chunks != [] ==> chunks[0].offset == start)
    && (chunks != [] ==> chunks[|chunks| - 1].offset + |chunks[|chunks| - 1].data| == cursor)
    && (forall i :: 0 <= i < |chunks| ==> chunks[i].total == |bytes| && 0 < |chunks[i].data| <= CHUNK_BYTES)
    && (forall i :: 0 <= i < |chunks| && (cursor < |bytes| || i < |chunks| - 1) ==> |chunks[i].data| == CHUNK_BYTES)
    && (forall i :: 0 < i < |chunks| ==> chunks[i].offset == chunks[i - 1].offset + |chunks[i - 1].data|)
  }

  lemma PartialExtends(bytes: Bytes, start: nat, cursor: nat, end: nat, chunks: seq<Chunk>)
    requires start <= cursor < |bytes| && Partial(bytes, start, cursor, chunks)
    requires end == (if cursor + CHUNK_BYTES < |bytes| then cursor + CHUNK_BYTES else |bytes|)
    ensures Partial(bytes, start, end, chunks + [Chunk(cursor, bytes[cursor..end], |bytes|)])
  {
    var longer := chunks + [Chunk(cursor, bytes[cursor..end], |bytes|)];
    assert longer[..|longer| - 1] == chunks;
    assert bytes[start..end] == bytes[start..cursor] + bytes[cursor..end];
  }

  method ArtifactChunks(bytes: Bytes, offset: int) returns (r: Option<seq<Chunk>>)
    ensures r.None? <==> offset < 0 || offset > |bytes|
    ensures r.Some? ==> Cuts(bytes, offset, r.value)
  {
    if offset < 0 || offset > |bytes| {
      return None;
    }
    var start: nat := offset;
    if start == |bytes| {
      return Some([Chunk(offset, [], |bytes|)]);
    }
    var chunks: seq<Chunk> := [];
    var cursor := start;
    while cursor < |bytes|
      invariant start <= cursor <= |bytes| && Partial(bytes, start, cursor, chunks)
    {
      var end := if cursor + CHUNK_BYTES < |bytes| then cursor + CHUNK_BYTES else |bytes|;
      PartialExtends(bytes, start, cursor, end, chunks);
      chunks := chunks + [Chunk(cursor, bytes[cursor..end], |bytes|)];
      cursor := end;
    }
    assert bytes[start..cursor] == bytes[start..];
    return Some(chunks);
  }

  lemma {:induction false} JoinedPrefix(chunks: seq<Chunk>, k: nat)
    requires k <= |chunks|
    ensures |Joined(chunks[..k])| <= |Joined(chunks)|
    ensures Joined(chunks[..k]) == Joined(chunks)[..|Joined(chunks[..k])|]
    decreases |chunks| - k
  {
    if k == |chunks| {
      assert chunks[..k] == chunks;
    } else {
      JoinedPrefix(chunks, k + 1);
      assert chunks[..k + 1][..k] == chunks[..k];
    }
  }

  /** One fetch, resumed at the length received so far and cut off after `k` chunks. */
  ghost predicate FetchStep(bytes: Bytes, have: Bytes, got: Bytes, done: bool) {
    |have| <= |bytes| && exists chunks, k :: Delivers(bytes, have, got, done, chunks, k)
  }

  ghost predicate Delivers(bytes: Bytes, have: Bytes, got: Bytes, done: bool, chunks: seq<Chunk>, k: nat)
    requires |have| <= |bytes|
  {
    && Cuts(bytes, |have|, chunks) && k <= |chunks|
    && got == have + Joined(chunks[..k])
    && (done <==> k == |chunks|)
  }

  /** `parts[i]` is what has been received after `i` fetches; only the last one may be complete. */
  ghost predicate Fetches(bytes: Bytes, parts: seq<Bytes>, done: bool) {
    && |parts| > 0 && parts[0] == []
    && (forall i :: 0 < i < |parts| ==> FetchStep(bytes, parts[i - 1], parts[i], done && i == |parts| - 1))
  }

  ghost predicate IsPrefix(part: Bytes, bytes: Bytes) {
    |part| <= |bytes| && part == bytes[..|part|]
  }

  lemma StepExtends(bytes: Bytes, have: Bytes, got: Bytes, done: bool)
    requires IsPrefix(have, bytes) && FetchStep(bytes, have, got, done)
    ensures IsPrefix(got, bytes) && |have| <= |got|
    ensures done ==> got == bytes
  {
    var chunks, k :| Delivers(bytes, have, got, done, chunks, k);
    JoinedPrefix(chunks, k);
    var n := |Joined(chunks[..k])|;
    assert bytes[|have|..][..n] == bytes[|have|..|have| + n];
    assert bytes[..|have|] + bytes[|have|..|have| + n] == bytes[..|have| + n];
    if done {
      assert chunks[..k] == chunks;
      assert bytes[..|have|] + bytes[|have|..] == bytes;
    }
  }

  /** However often a fetch is cut off, what has arrived is a prefix, and a completed one is the whole. */
  lemma {:induction false} ResumedFetchesRebuild(bytes: Bytes, parts: seq<Bytes>, done: bool)
    requires Fetches(bytes, parts, done)
    ensures IsPrefix(parts[|parts| - 1], bytes)
    ensures done && |parts| > 1 ==> parts[|parts| - 1] == bytes
    decreases |parts|
  {
    var n := |parts| - 1;
    if n > 0 {
      FetchesBefore(bytes, parts, done);
      ResumedFetchesRebuild(bytes, parts[..n], false);
      StepExtends(bytes, parts[n - 1], parts[n], done);
    }
  }

  lemma FetchesBefore(bytes: Bytes, parts: seq<Bytes>, done: bool)
    requires Fetches(bytes, parts, done) && |parts| > 1
    ensures Fetches(bytes, parts[..|parts| - 1], false)
    ensures FetchStep(bytes, parts[|parts| - 2], parts[|parts| - 1], done)
  {
    var front := parts[..|parts| - 1];
    forall i | 0 < i < |front| ensures FetchStep(bytes, front[i - 1], front[i], false) {
      assert FetchStep(bytes, parts[i - 1], parts[i], done && i == |parts| - 1);
    }
  }
}
