/** Cutting a VCD body into chunks at timestamp lines (crates/bwave/src/vcd_chunk.rs). */
module ChunkSource {
  import opened Basics
  import opened BitText
  import opened VcdText

  const READ_BLOCK_BYTES: nat := 64 * 1024
  const MAX_RECYCLED_BUFFERS: nat := 4

  datatype Chunk = Chunk(sequence: nat, startOffset: nat, endOffset: nat, bytes: seq<Byte>)

  // ---- Where chunks are cut ----

  /** A timestamp line starts at `p`. */
  predicate CutAt(text: seq<Byte>, p: nat) {
    0 < p < |text| && text[p] == HASH && text[p - 1] == NEWLINE
  }

  function CutFrom(text: seq<Byte>, p: nat): nat
    decreases |text| - p
  {
    if p >= |text| then |text| else if CutAt(text, p) then p else CutFrom(text, p + 1)
  }

  /** End of the first chunk of `rest`. */
  function FirstCut(rest: seq<Byte>, target: nat): nat {
    CutFrom(rest, Max(target, 1))
  }

  lemma {:induction false} CutFromMeaning(text: seq<Byte>, p: nat)
    ensures CutFrom(text, p) <= |text|
    ensures CutFrom(text, p) < |text| ==> p <= CutFrom(text, p) && CutAt(text, CutFrom(text, p))
    ensures forall q :: p <= q < CutFrom(text, p) ==> !CutAt(text, q)
    decreases |text| - p
  {
    if p < |text| && !CutAt(text, p) { CutFromMeaning(text, p + 1); }
  }

  /** A chunk ends at the first line-starting '#' at or beyond the target, or at the end. */
  lemma FirstCutMeaning(rest: seq<Byte>, target: nat, cut: nat)
    requires target > 0
    ensures cut == FirstCut(rest, target) <==>
            || (cut < |rest| && target <= cut && CutAt(rest, cut) && forall q :: target <= q < cut ==> !CutAt(rest, q))
            || (cut == |rest| && forall q :: target <= q < |rest| ==> !CutAt(rest, q))
  {
    CutFromMeaning(rest, target);
  }

  lemma FirstCutFound(rest: seq<Byte>, target: nat, cut: nat)
    requires target > 0 && target <= cut && CutAt(rest, cut)
    requires forall q :: target <= q < cut ==> !CutAt(rest, q)
    ensures FirstCut(rest, target) == cut
  {
    FirstCutMeaning(rest, target, cut);
  }

  lemma FirstCutMissing(rest: seq<Byte>, target: nat)
    requires target > 0
    requires forall q :: target <= q < |rest| ==> !CutAt(rest, q)
    ensures FirstCut(rest, target) == |rest|
  {
    FirstCutMeaning(rest, target, |rest|);
  }

  lemma FirstCutBounds(rest: seq<Byte>, target: nat)
    requires target > 0 && rest != []
    ensures 0 < FirstCut(rest, target) <= |rest|
  {
    CutFromMeaning(rest, target);
  }

  /** The chunks of a body: a function of the text and the target alone. */
  function Chunks(rest: seq<Byte>, target: nat, offset: nat, sequence: nat): seq<Chunk>
    requires target > 0
    decreases |rest|
  {
    if rest == [] then []
    else
      FirstCutBounds(rest, target);
      var cut := FirstCut(rest, target);
      [Chunk(sequence, offset, offset + cut, rest[..cut])] + Chunks(rest[cut..], target, offset + cut, sequence + 1)
  }

  lemma ChunksUnfold(rest: seq<Byte>, target: nat, offset: nat, sequence: nat)
    requires target > 0 && rest != []
    ensures var cut := FirstCut(rest, target);
            && 0 < cut <= |rest|
            && Chunks(rest, target, offset, sequence)
            == [Chunk(sequence, offset, offset + cut, rest[..cut])] + Chunks(rest[cut..], target, offset + cut, sequence + 1)
  {
    FirstCutBounds(rest, target);
  }

  lemma ConcatCons(c: Chunk, cs: seq<Chunk>)
    ensures Concat([c] + cs) == c.bytes + Concat(cs)
  {}

  function Concat(cs: seq<Chunk>): seq<Byte> {
    if cs == [] then [] else cs[0].bytes + Concat(cs[1..])
  }

  lemma NothingConcatenated(target: nat, offset: nat, sequence: nat)
    requires target > 0
    ensures Concat(Chunks([], target, offset, sequence)) == []
  {}

  lemma Rejoin(rest: seq<Byte>, cut: nat)
    requires cut <= |rest|
    ensures rest[..cut] + rest[cut..] == rest
  {}

  lemma {:induction false} ChunksConcatenate(rest: seq<Byte>, target: nat, offset: nat, sequence: nat)
    requires target > 0
    ensures Concat(Chunks(rest, target, offset, sequence)) == rest
    decreases |rest|
  {
    hide *;
    if rest == [] {
      NothingConcatenated(target, offset, sequence);
    } else {
      ChunksUnfold(rest, target, offset, sequence);
      var cut := FirstCut(rest, target);
      ChunksConcatenate(rest[cut..], target, offset + cut, sequence + 1);
      ConcatCons(Chunk(sequence, offset, offset + cut, rest[..cut]), Chunks(rest[cut..], target, offset + cut, sequence + 1));
      Rejoin(rest, cut);
    }
  }

  /** Chunk `k` continues where its predecessor ended, is not empty, starts with a
      timestamp unless it is the first, and reaches the target and a line end unless it is the last. */
  ghost predicate ChunkInPlace(cs: seq<Chunk>, k: nat, target: nat, offset: nat, sequence: nat)
    requires k < |cs|
  {
    var c := cs[k];
    && c.bytes != [] && c.sequence == sequence + k
    && c.endOffset == c.startOffset + |c.bytes|
    && c.startOffset == (if k == 0 then offset else cs[k - 1].endOffset)
    && (k > 0 ==> c.bytes[0] == HASH)
    && (k + 1 < |cs| ==> |c.bytes| >= target && EndsLine(c.bytes))
  }

  lemma {:induction false} ChunksAreInPlace(rest: seq<Byte>, target: nat, offset: nat, sequence: nat, k: nat)
    requires target > 0 && k < |Chunks(rest, target, offset, sequence)|
    ensures ChunkInPlace(Chunks(rest, target, offset, sequence), k, target, offset, sequence)
    decreases |rest|
  {
    FirstCutBounds(rest, target);
    var cut := FirstCut(rest, target);
    FirstCutMeaning(rest, target, cut);
    hide FirstCut;
    var tail := Chunks(rest[cut..], target, offset + cut, sequence + 1);
    if k > 0 {
      ChunksAreInPlace(rest[cut..], target, offset + cut, sequence + 1, k - 1);
      assert Chunks(rest, target, offset, sequence)[k] == tail[k - 1];
    }
  }

  /** Remaining text, its offset and the number of the next chunk. */
  datatype Position = Position(rest: seq<Byte>, offset: nat, sequence: nat)

  /** From one position to the next by handing out the first chunk. */
  ghost predicate Taken(target: nat, from: Position, c: Chunk, to: Position) {
    var cut := FirstCut(from.rest, target);
    && 0 < cut <= |from.rest|
    && c == Chunk(from.sequence, from.offset, from.offset + cut, from.rest[..cut])
    && to == Position(from.rest[cut..], from.offset + cut, from.sequence + 1)
  }

  function ChunksAt(at: Position, target: nat): seq<Chunk>
    requires target > 0
  {
    Chunks(at.rest, target, at.offset, at.sequence)
  }

  // ---- The reader ----

  datatype SourceError = Cancelled | ReadFailed | OffsetOverflow

  /** `input` is what the reader has not delivered; recycled buffers are known by their capacities. */
  class VcdChunkSource {
    const target: nat
    var input: seq<Byte>
    var buffer: seq<Byte>
    var capacity: nat
    var nextOffset: nat
    var sequence: nat
    var eof: bool
    var boundarySearch: nat
    var recycled: seq<nat>

    ghost predicate Valid()
      reads this
    {
      && target > 0 && |buffer| <= capacity && |recycled| <= MAX_RECYCLED_BUFFERS
      && (eof ==> input == [])
      && target <= boundarySearch <= Max(target, |buffer|)
      && forall q :: target <= q < boundarySearch ==> !CutAt(buffer, q)
    }

    /** Text not yet handed out. */
    ghost function Rest(): seq<Byte>
      reads this
    {
      buffer + input
    }

    ghost function At(): Position
      reads this
    {
      Position(Rest(), nextOffset, sequence)
    }

    constructor (input: seq<Byte>, bodyOffset: nat, target: nat)
      requires target > 0
      ensures Valid() && this.target == target && At() == Position(input, bodyOffset, 0)
    {
      this.target, this.input, buffer := target, input, [];
      capacity := target + READ_BLOCK_BYTES;
      nextOffset, sequence, eof, recycled := bodyOffset, 0, false, [];
      boundarySearch := if target > 1 then target else 1;
    }

    method NextBoundary() returns (r: Option<nat>)
      requires Valid()
      modifies this`boundarySearch
      ensures Valid()
      ensures r.Some? ==> 0 < r.value <= |buffer| && r.value == FirstCut(Rest(), target)
      ensures r.None? && eof ==> FirstCut(Rest(), target) == |Rest()|
    {
      if |buffer| < target {
        FirstCutShort();
        return None;
      }
      var search := boundarySearch;
      hide CutFrom, FirstCut, IndexOf;
      while search < |buffer|
        invariant boundarySearch == old(boundarySearch) && target <= search <= |buffer|
        invariant forall q :: target <= q < search ==> !CutAt(buffer, q)
      {
        var relative := IndexOf(HASH, buffer[search..]);
        NoHash(buffer, search, relative);
        if relative == |buffer[search..]| {
          boundarySearch := |buffer|;
          FirstCutUnlessMore();
          return None;
        }
        var position := search + relative;
        var startsLine := buffer[position - 1] == NEWLINE;
        var complete := eof || IndexOf(NEWLINE, buffer[position..]) < |buffer[position..]|;
        if startsLine && complete {
          CutIsStable(position);
          return Some(position);
        }
        if startsLine {
          boundarySearch := position;
          return None;
        }
        search := position + 1;
      }
      boundarySearch := search;
      FirstCutUnlessMore();
      r := None;
    }

    lemma FirstCutShort()
      requires Valid() && |buffer| < target
      ensures eof ==> FirstCut(Rest(), target) == |Rest()|
    {
      if eof { FirstCutMissing(Rest(), target); }
    }

    lemma FirstCutUnlessMore()
      requires target > 0 && (eof ==> input == [])
      requires forall q :: target <= q < |buffer| ==> !CutAt(buffer, q)
      ensures eof ==> FirstCut(Rest(), target) == |Rest()|
    {
      if eof {
        assert Rest() == buffer;
        FirstCutMissing(Rest(), target);
      }
    }

    /** A cut found in the buffer stays the first one however the text goes on. */
    lemma CutIsStable(position: nat)
      requires 0 < target <= position && CutAt(buffer, position)
      requires forall q :: target <= q < position ==> !CutAt(buffer, q)
      ensures FirstCut(Rest(), target) == position
    {
      forall q | target <= q <= position ensures CutAt(Rest(), q) == CutAt(buffer, q) {}
      FirstCutFound(Rest(), target, position);
    }

    /** Switches to a recycled buffer when the current one is small; the text stays. */
    method ActivateRecycledBuffer()
      requires Valid()
      modifies this`capacity, this`recycled
      ensures Valid()
    {
      if capacity >= target || recycled == [] { return; }
      var spare := recycled[|recycled| - 1];
      recycled := recycled[..|recycled| - 1];
      capacity := if spare >= |buffer| then spare else |buffer|;
    }

    /** One read of any permitted size: only the end of the input reads nothing. A failed
        read leaves the space it had made in the buffer, and the source is not used again. */
    method ReadBlock() returns (r: Result<(), SourceError>)
      requires Valid() && !eof
      modifies this`input, this`buffer, this`capacity, this`eof, this`recycled
      ensures r.Ok? ==> Valid() && Rest() == old(Rest())
      ensures r.Ok? ==> eof || |input| < |old(input)|
      ensures r.Err? ==> r.error != OffsetOverflow
    {
      ActivateRecycledBuffer();
      var requested := if target > |buffer| + READ_BLOCK_BYTES then target - |buffer| else READ_BLOCK_BYTES;
      var was := buffer;
      buffer := was + Repeat(0, requested);
      capacity := if capacity >= |buffer| then capacity else |buffer|;
      var failed: bool, cancelled: bool := *, *;
      if cancelled { return Err(Cancelled); }
      if failed { return Err(ReadFailed); }
      var n: nat :| n <= requested && n <= |input| && (n == 0 <==> input == []);
      assert was + input == (was + input[..n]) + input[n..];
      buffer, input := was + input[..n], input[n..];
      forall q | target <= q < boundarySearch ensures CutAt(buffer, q) == CutAt(was, q) {}
      eof := n == 0;
      r := Ok(());
    }

    method TakeChunk(boundary: nat) returns (r: Result<Chunk, SourceError>)
      requires Valid() && 0 < boundary <= |buffer|
      modifies this
      ensures eof == old(eof)
      ensures r.Ok? ==> Valid()
      ensures r.Ok? ==> r.value == Chunk(old(sequence), old(nextOffset), nextOffset, old(Rest())[..boundary])
      ensures r.Ok? ==> nextOffset == old(nextOffset) + boundary && sequence == old(sequence) + 1
      ensures r.Ok? ==> Rest() == old(Rest())[boundary..]
      ensures r.Err? <==> old(nextOffset) + boundary > U64_MAX
    {
      var remainder := buffer[boundary..];
      var bytes := buffer[..boundary];
      assert (buffer + input)[boundary..] == remainder + input;
      buffer := remainder;
      var endOffset := CheckedAdd(nextOffset, |bytes|);
      if endOffset.None? { return Err(OffsetOverflow); }
      r := Ok(Chunk(sequence, nextOffset, endOffset.value, bytes));
      sequence := sequence + 1;
      nextOffset := endOffset.value;
      boundarySearch := if target > 1 then target else 1;
    }

    /** The next chunk of the remaining text, whatever sizes the reads had. */
    method NextChunk() returns (r: Result<Option<Chunk>, SourceError>)
      requires Valid()
      modifies this
      ensures r.Ok? ==> Valid()
      ensures r == Ok(None) ==> old(At()) == At() && At().rest == []
      ensures r.Ok? && r.value.Some? ==>
                Taken(target, old(At()), r.value.value, At())
      ensures r == Err(OffsetOverflow) ==> old(At()).offset + |old(At()).rest| > U64_MAX
    {
      while true
        invariant Valid() && Rest() == old(Rest()) && nextOffset == old(nextOffset) && sequence == old(sequence)
        decreases |input|, !eof
      {
        var cancelled: bool := *;
        if cancelled { return Err(Cancelled); }
        var boundary := NextBoundary();
        if boundary.Some? {
          var taken := TakeChunk(boundary.value);
          return match taken case Ok(c) => Ok(Some(c)) case Err(e) => Err(e);
        }
        if eof {
          if buffer == [] { return Ok(None); }
          var taken := TakeChunk(|buffer|);
          return match taken case Ok(c) => Ok(Some(c)) case Err(e) => Err(e);
        }
        var read := ReadBlock();
        if read.Err? { return Err(read.error); }
      }
    }

    /** Takes back a consumed chunk's buffer; the unread text moves into it unchanged. */
    method Recycle(chunkCapacity: nat)
      requires Valid()
      modifies this`capacity, this`recycled
      ensures Valid() && At() == old(At())
    {
      var previous := capacity;
      capacity := if chunkCapacity >= |buffer| then chunkCapacity else |buffer|;
      if previous >= target && |recycled| < MAX_RECYCLED_BUFFERS {
        recycled := recycled + [previous];
      }
    }
  }

  lemma NoHash(buffer: seq<Byte>, search: nat, relative: nat)
    requires search <= |buffer| && relative == IndexOf(HASH, buffer[search..])
    ensures search + relative < |buffer| ==> buffer[search + relative] == HASH
    ensures forall q :: search <= q < search + relative ==> !CutAt(buffer, q)
  {
    forall q | search <= q < search + relative ensures !CutAt(buffer, q) {
      assert buffer[search..][q - search] == buffer[q];
    }
  }

  /** Reading a whole body gives the same chunks however the reads are fragmented
      and whenever buffers come back; if it fails, it has delivered a prefix of them. */
  method CollectChunks(body: seq<Byte>, bodyOffset: nat, target: nat) returns (r: Result<(), SourceError>, chunks: seq<Chunk>)
    requires target > 0
    ensures r.Ok? ==> chunks == Chunks(body, target, bodyOffset, 0)
    ensures r.Err? ==> chunks <= Chunks(body, target, bodyOffset, 0)
    ensures r == Err(OffsetOverflow) ==> bodyOffset + |body| > U64_MAX
  {
    var source := new VcdChunkSource(body, bodyOffset, target);
    chunks := [];
    ghost var all := Chunks(body, target, bodyOffset, 0);
    assert [] + all == all;
    hide *;
    while true
      invariant source.Valid() && source.target == target && fresh(source)
      invariant chunks + ChunksAt(source.At(), target) == all
      invariant source.At().offset + |source.At().rest| == bodyOffset + |body|
      decreases |source.At().rest|
    {
      ghost var at := source.At();
      var next := source.NextChunk();
      DeliveredPrefix(chunks, at, target);
      if next.Err? {
        return Err(next.error), chunks;
      }
      if next.value.None? {
        return Ok(()), chunks;
      }
      Delivered(chunks, at, next.value.value, source.At(), target);
      chunks := chunks + [next.value.value];
      var returned: bool, size: nat := *, *;
      if returned { source.Recycle(size); }
    }
  }

  lemma DeliveredPrefix(chunks: seq<Chunk>, at: Position, target: nat)
    requires target > 0
    ensures chunks <= chunks + ChunksAt(at, target)
    ensures at.rest == [] ==> chunks == chunks + ChunksAt(at, target)
  {}

  lemma Delivered(chunks: seq<Chunk>, at: Position, c: Chunk, to: Position, target: nat)
    requires target > 0 && Taken(target, at, c, to)
    ensures chunks + ChunksAt(at, target) == (chunks + [c]) + ChunksAt(to, target)
    ensures to.offset + |to.rest| == at.offset + |at.rest| && |to.rest| < |at.rest|
  {
    hide FirstCut, Chunks;
    ChunksUnfold(at.rest, target, at.offset, at.sequence);
  }
}
