/** The `my_b_*` macros of my_sys.h: a buffered reader and writer indistinguishable from the plain byte stream. */
module IoCache {
  import opened Bytes
  import opened Sequences

  /** `my_b_EOF`, INT_MIN. */
  const EOF: int := -0x8000_0000

  // ----- The plain stream ----------------------------------------------------------------------

  /** One operation moved the reader from `before` to `after` and handed out exactly the bytes between. */
  ghost predicate Delivers(stream: seq<byte>, before: nat, after: nat, bytes: seq<byte>) {
    before <= after <= |stream| && bytes == stream[before..after]
  }

  lemma DeliversOneAfterAnother(stream: seq<byte>, p: nat, q: nat, r: nat, first: seq<byte>, second: seq<byte>)
    requires Delivers(stream, p, q, first) && Delivers(stream, q, r, second)
    ensures Delivers(stream, p, r, first + second)
  {
    assert stream[p..r] == stream[p..q] + stream[q..r];
  }

  function Flatten(chunks: seq<seq<byte>>): seq<byte> {
    if chunks == [] then [] else chunks[0] + Flatten(chunks[1..])
  }

  lemma {:induction false} FlattenAppend(chunks: seq<seq<byte>>, last: seq<byte>)
    ensures Flatten(chunks + [last]) == Flatten(chunks) + last
  {
    if chunks == [] {
      assert chunks + [last] == [last];
      assert Flatten([last]) == last + Flatten([]);
    } else {
      FlattenAppend(chunks[1..], last);
      assert (chunks + [last])[1..] == chunks[1..] + [last];
      assert chunks[0] + (Flatten(chunks[1..]) + last) == (chunks[0] + Flatten(chunks[1..])) + last;
    }
  }

  lemma SliceOfSlice(s: seq<byte>, pos: nat, len: nat, from: nat, count: nat)
    requires from + count <= len && pos + len <= |s|
    ensures s[pos..pos + len][from..from + count] == s[pos + from..pos + from + count]
  {
    var t := s[pos..pos + len];
    assert forall k | 0 <= k < len :: t[k] == s[pos + k];
  }

  // ----- Reading -------------------------------------------------------------------------------

  /** The fields of IO_CACHE a READ_CACHE uses; pointers are offsets into `buffer`, and `current_pos` is
      `read_pos`. `stream` is the content of the underlying file. */
  class ReadCache {
    const stream: seq<byte>
    const buffer: array<byte>
    var posInFile: nat
    var requestPos: nat
    var readPos: nat
    var readEnd: nat
    var error: int

    ghost predicate Valid()
      reads this, buffer
    {
      && requestPos <= readPos <= readEnd <= buffer.Length
      && posInFile + (readEnd - requestPos) <= |stream|
      && buffer[requestPos..readEnd] == stream[posInFile..posInFile + (readEnd - requestPos)]
    }

    /** `my_b_tell` */
    function Tell(): (p: nat)
      requires requestPos <= readPos
      reads this
    {
      posInFile + (readPos - requestPos)
    }

    /** `my_b_bytes_in_cache` */
    function BytesInCache(): (n: nat)
      requires readPos <= readEnd
      reads this
    {
      readEnd - readPos
    }

    /** How many bytes a read handed out: all on 0, none on a hard error, `error` of them on a partial read. */
    function Got(rc: int, count: nat): int
      reads this
    {
      if rc == 0 then count else if error == -1 then 0 else error
    }

    constructor (stream: seq<byte>, start: nat, bufferLength: nat)
      requires start <= |stream|
      ensures Valid() && Tell() == start && this.stream == stream && buffer.Length == bufferLength && fresh(buffer)
    {
      this.stream := stream;
      buffer := new byte[bufferLength](i => 0);
      posInFile, requestPos, readPos, readEnd, error := start, 0, 0, 0, 0;
    }

    /** Moves to stream position `next` with some window of the stream in the buffer. */
    method LoadWindow(next: nat)
      requires next <= |stream|
      modifies this, buffer
      ensures Valid() && Tell() == next && error == old(error)
    {
      var window: nat :| window <= buffer.Length && window <= |stream| - next;
      forall i | 0 <= i < window {
        buffer[i] := stream[next + i];
      }
      posInFile, requestPos, readPos, readEnd := next, 0, 0, window;
    }

    /** Any `read_function`: it hands out the next `count` bytes, or fewer with a nonzero result, and leaves some
        window of the stream in the buffer. No more than `count` bytes may be cached, for it drops what it does not
        hand out. */
    method ReadFunction(dst: array<byte>, count: nat) returns (rc: int)
      requires Valid() && dst != buffer && BytesInCache() <= count <= dst.Length
      modifies this, buffer, dst
      ensures Valid()
      ensures rc != 0 ==> error < count
      ensures var got := Got(rc, count);
              0 <= got <= count && dst[got..] == old(dst[got..]) && Delivers(stream, old(Tell()), Tell(), dst[..got])
    {
      var start := posInFile + (readPos - requestPos);
      var got: nat :| got <= count && got <= |stream| - start;
      forall i | 0 <= i < got {
        dst[i] := stream[start + i];
      }
      LoadWindow(start + got);
      rc := if got == count then 0 else 1;
      error := if got == count then 0 else got;
      if got == 0 && count > 0 {
        if * {
          error := -1;
        }
      }
    }

    /** Any `_my_b_get`: the next byte, or my_b_EOF when nothing more could be read. */
    method GetSlow() returns (c: int)
      requires Valid() && BytesInCache() == 0
      modifies this, buffer
      ensures Valid()
      ensures c == EOF || 0 <= c < 256
      ensures Delivers(stream, old(Tell()), Tell(), if c == EOF then [] else [c])
    {
      var one := new byte[1];
      var rc := ReadFunction(one, 1);
      if rc != 0 {
        return EOF;
      }
      assert one[..1] == [one[0]];
      c := one[0];
    }

    /** A stretch of the cached window is that stretch of the stream. */
    lemma CachedWindow(pos: nat, cached: seq<byte>, from: nat, count: nat)
      requires from + count <= |cached| && pos + |cached| <= |stream|
      requires cached == stream[pos..pos + |cached|]
      ensures cached[from..from + count] == stream[pos + from..pos + from + count]
    {
      SliceOfSlice(stream, pos, |cached|, from, count);
    }

    /** `memcpy(Buffer, read_pos, Count)` of bytes that are cached. */
    method CopyCached(dst: array<byte>, count: nat)
      requires Valid() && dst != buffer && count <= dst.Length && readPos + count <= readEnd
      modifies dst
      ensures dst[count..] == old(dst[count..])
      ensures dst[..count] == stream[Tell()..Tell() + count]
    {
      ghost var cached, from := buffer[requestPos..readEnd], readPos - requestPos;
      forall i | 0 <= i < count {
        dst[i] := buffer[readPos + i];
      }
      assert forall i | 0 <= i < count :: dst[i] == cached[from + i];
      assert dst[..count] == cached[from..from + count];
      CachedWindow(posInFile, cached, from, count);
    }

    /** `my_b_read` */
    method Read(dst: array<byte>, count: nat) returns (rc: int)
      requires Valid() && dst != buffer && count <= dst.Length
      modifies this, buffer, dst
      ensures Valid()
      ensures old(BytesInCache()) >= count ==> rc == 0 && BytesInCache() == old(BytesInCache()) - count
      ensures rc != 0 ==> error < count
      ensures var got := Got(rc, count);
              0 <= got <= count && dst[got..] == old(dst[got..]) && Delivers(stream, old(Tell()), Tell(), dst[..got])
    {
      if readPos + count <= readEnd {
        CopyCached(dst, count);
        readPos := readPos + count;
        rc := 0;
      } else {
        rc := ReadFunction(dst, count);
      }
    }

    /** `my_b_get` */
    method Get() returns (c: int)
      requires Valid()
      modifies this, buffer
      ensures Valid()
      ensures old(BytesInCache()) > 0 ==> c != EOF && BytesInCache() == old(BytesInCache()) - 1
      ensures c == -2_147_483_648 || 0 <= c < 256
      ensures Delivers(stream, old(Tell()), Tell(), if c == EOF then [] else [c])
    {
      if readPos != readEnd {
        ghost var cached, from := buffer[requestPos..readEnd], readPos - requestPos;
        readPos := readPos + 1;
        c := buffer[readPos - 1];
        assert c == cached[from];
      } else {
        c := GetSlow();
      }
    }

    /** `my_b_fill_cache`: drops what is cached and reads a new window; the position does not move. */
    method FillCache() returns (rc: int)
      requires Valid()
      modifies this, buffer
      ensures Valid() && Tell() == old(Tell())
    {
      var none := new byte[0];
      CachedWindow(posInFile, buffer[requestPos..readEnd], 0, readPos - requestPos);
      assert buffer[requestPos..readPos] == buffer[requestPos..readEnd][0..readPos - requestPos];
      readEnd := readPos;
      rc := ReadFunction(none, 0);
    }
  }

  // ----- Writing -------------------------------------------------------------------------------

  /** The fields a WRITE_CACHE uses. `memory` holds the write buffer and whatever lies behind `write_end`;
      `flushed` is what has reached the file. */
  class WriteCache {
    const memory: array<byte>
    const start: nat
    var flushed: seq<byte>
    var posInFile: nat
    var requestPos: nat
    var writePos: nat
    var writeEnd: nat

    /** What holds even after `write_pos` has passed `write_end`. */
    ghost predicate Consistent()
      reads this
    {
      && requestPos <= writePos <= memory.Length
      && requestPos < writeEnd < memory.Length
      && posInFile == start + |flushed|
    }

    ghost predicate Valid()
      reads this
    {
      Consistent() && writePos <= writeEnd
    }

    /** Everything written so far: flushed, then pending. */
    function Contents(): seq<byte>
      requires requestPos <= writePos <= memory.Length
      reads this, memory
    {
      flushed + memory[requestPos..writePos]
    }

    /** `my_b_tell` */
    function Tell(): (p: nat)
      requires requestPos <= writePos
      reads this
    {
      posInFile + (writePos - requestPos)
    }

    /** The position is always the start offset plus the bytes written. */
    lemma TellCountsContents()
      requires Consistent()
      ensures Tell() == start + |Contents()|
    {
    }

    constructor (start: nat, bufferLength: nat)
      requires bufferLength > 0
      ensures Valid() && Contents() == [] && Tell() == start && this.start == start && fresh(memory)
      ensures flushed == [] && requestPos == writePos == 0 && writeEnd == bufferLength
    {
      memory := new byte[bufferLength + 1](i => 0);
      this.start := start;
      flushed, posInFile, requestPos, writePos, writeEnd := [], start, 0, 0, bufferLength;
    }

    /** Any `write_function`: 0 when all of `src` was accepted; otherwise the cache keeps some prefix of it. */
    method WriteFunction(src: seq<byte>) returns (rc: int, ghost accepted: nat)
      requires Valid()
      modifies this, memory
      ensures Valid() && accepted <= |src| && (rc == 0 ==> accepted == |src|)
      ensures Contents() == old(Contents()) + src[..accepted]
      ensures forall i | writeEnd <= i < memory.Length :: memory[i] == old(memory[i])
      ensures writeEnd == old(writeEnd) && requestPos == old(requestPos)
    {
      var taken: nat :| taken <= |src|;
      ghost var before := Contents();
      flushed := flushed + memory[requestPos..writePos] + src[..taken];
      posInFile, writePos := start + |flushed|, requestPos;
      rc, accepted := if taken == |src| then 0 else -1, taken;
      assert Contents() == before + src[..taken];
    }

    /** Any `_my_b_write(info, 0, 0)` on a full buffer; `makesRoom` says whether it could empty it. */
    method Flush(makesRoom: bool)
      requires Valid() && writePos == writeEnd
      modifies this
      ensures Valid() && Contents() == old(Contents())
      ensures writePos < writeEnd <==> makesRoom
      ensures writeEnd == old(writeEnd) && requestPos == old(requestPos)
    {
      if makesRoom {
        flushed := flushed + memory[requestPos..writePos];
        posInFile, writePos := start + |flushed|, requestPos;
      }
    }

    /** Any `my_b_flush_io_cache`: when it succeeds, the file holds everything written. */
    method FlushAll(succeeds: bool)
      requires Valid()
      modifies this
      ensures Valid() && Contents() == old(Contents())
      ensures succeeds ==> flushed == Contents()
    {
      if succeeds {
        flushed := flushed + memory[requestPos..writePos];
        posInFile, writePos := start + |flushed|, requestPos;
      }
    }

    /** `my_b_write` */
    method Write(src: seq<byte>) returns (rc: int, ghost accepted: nat)
      requires Valid()
      modifies this, memory
      ensures Valid() && accepted <= |src| && (rc == 0 ==> accepted == |src|)
      ensures Contents() == old(Contents()) + src[..accepted]
      ensures old(writePos) + |src| <= old(writeEnd) ==> rc == 0 && writePos == old(writePos) + |src|
      ensures forall i | writeEnd <= i < memory.Length :: memory[i] == old(memory[i])
      ensures writeEnd == old(writeEnd) && requestPos == old(requestPos)
    {
      if writePos + |src| <= writeEnd {
        forall i | 0 <= i < |src| {
          memory[writePos + i] := src[i];
        }
        ghost var pending := old(memory[requestPos..writePos]);
        writePos := writePos + |src|;
        assert memory[requestPos..writePos] == pending + src;
        assert src[..|src|] == src;
        rc, accepted := 0, |src|;
      } else {
        rc, accepted := WriteFunction(src);
      }
    }

    /** `my_b_write_byte`, which ignores the result of the flush: the byte lands inside the buffer, and the cache
        stays valid, exactly when there was room or the flush makes some. Otherwise `write_pos` passes `write_end`
        and the byte overwrites what lies there. */
    method WriteByte(c: byte, flushMakesRoom: bool)
      requires Valid()
      modifies this, memory
      ensures Valid() <==> old(writePos) < old(writeEnd) || flushMakesRoom
      ensures Consistent() && Contents() == old(Contents()) + [c]
      ensures Valid() ==> forall i | writeEnd <= i < memory.Length :: memory[i] == old(memory[i])
      ensures !Valid() ==> memory[writeEnd] == c && writePos == writeEnd + 1
      ensures old(writePos) < old(writeEnd) ==> flushed == old(flushed) && writePos == old(writePos) + 1
      ensures writeEnd == old(writeEnd) && requestPos == old(requestPos)
    {
      if writePos >= writeEnd {
        Flush(flushMakesRoom);
      }
      ghost var pending := memory[requestPos..writePos];
      memory[writePos] := c;
      writePos := writePos + 1;
      assert memory[requestPos..writePos] == pending + [c];
    }
  }

  // ----- Runs of operations --------------------------------------------------------------------

  datatype ReadOp = GetBlock(count: nat) | GetByte | Refill

  function Asked(op: ReadOp): nat {
    match op
    case GetBlock(count) => count
    case GetByte => 1
    case Refill => 0
  }

  /** A call hands out no more than it was asked for, and no less unless it reports a failure. */
  ghost predicate HandsOut(op: ReadOp, bytes: seq<byte>, ok: bool) {
    |bytes| <= Asked(op) && (ok ==> |bytes| == Asked(op))
  }

  method ReadOne(cache: ReadCache, op: ReadOp) returns (bytes: seq<byte>, ok: bool)
    requires cache.Valid()
    modifies cache, cache.buffer
    ensures cache.Valid() && HandsOut(op, bytes, ok)
    ensures Delivers(cache.stream, old(cache.Tell()), cache.Tell(), bytes)
  {
    match op
    case GetBlock(count) =>
      var dst := new byte[count](i => 0);
      var rc := cache.Read(dst, count);
      bytes, ok := dst[..cache.Got(rc, count)], rc == 0;
    case GetByte =>
      var c := cache.Get();
      bytes, ok := if c == EOF then [] else [c as byte], c != EOF;
    case Refill =>
      var rc := cache.FillCache();
      bytes, ok := [], rc == 0;
  }

  /** Whatever the mix of `my_b_read`, `my_b_get` and `my_b_fill_cache`, and wherever the cache refills or falls
      short, no byte is lost or repeated: together the calls hand out the stream from where the reader stood to where
      it stands now. A call that reports no failure hands out all it was asked for. */
  method RunReads(cache: ReadCache, ops: seq<ReadOp>) returns (delivered: seq<seq<byte>>, ok: seq<bool>)
    requires cache.Valid()
    modifies cache, cache.buffer
    ensures cache.Valid()
    ensures |delivered| == |ok| == |ops|
    ensures forall i | 0 <= i < |ops| :: HandsOut(ops[i], delivered[i], ok[i])
    ensures Delivers(cache.stream, old(cache.Tell()), cache.Tell(), Flatten(delivered))
    ensures cache.Tell() == old(cache.Tell()) + |Flatten(delivered)|
  {
    delivered, ok := [], [];
    for done := 0 to |ops|
      invariant cache.Valid()
      invariant |delivered| == |ok| == done
      invariant forall i | 0 <= i < done :: HandsOut(ops[i], delivered[i], ok[i])
      invariant Delivers(cache.stream, old(cache.Tell()), cache.Tell(), Flatten(delivered))
    {
      ghost var before := cache.Tell();
      var bytes, whole := ReadOne(cache, ops[done]);
      DeliversOneAfterAnother(cache.stream, old(cache.Tell()), before, cache.Tell(), Flatten(delivered), bytes);
      FlattenAppend(delivered, bytes);
      delivered, ok := delivered + [bytes], ok + [whole];
    }
  }

  datatype WriteOp = PutBlock(src: seq<byte>) | PutByte(c: byte, flushMakesRoom: bool)

  /** What a call may have accepted: some prefix of a block, and always the byte of a `my_b_write_byte`. */
  ghost predicate Accepts(op: WriteOp, bytes: seq<byte>) {
    match op
    case PutBlock(src) => bytes <= src
    case PutByte(c, _) => bytes == [c]
  }

  ghost predicate FlushesMakeRoom(ops: seq<WriteOp>) {
    forall op | op in ops :: op.PutByte? ==> op.flushMakesRoom
  }

  method WriteOne(cache: WriteCache, op: WriteOp) returns (ghost accepted: seq<byte>)
    requires cache.Valid()
    modifies cache, cache.memory
    ensures cache.Consistent() && Accepts(op, accepted)
    ensures cache.Contents() == old(cache.Contents()) + accepted
    ensures op.PutBlock? || op.flushMakesRoom ==> cache.Valid()
    ensures cache.writeEnd == old(cache.writeEnd) && cache.requestPos == old(cache.requestPos)
    ensures cache.Valid() ==> cache.memory[cache.writeEnd..] == old(cache.memory[cache.writeEnd..])
  {
    match op
    case PutBlock(src) =>
      var rc, n := cache.Write(src);
      accepted := src[..n];
    case PutByte(c, makesRoom) =>
      cache.WriteByte(c, makesRoom);
      accepted := [c];
  }

  /** Any mix of `my_b_write` and `my_b_write_byte`, up to the first overrun: the contents grow by what the calls
      accepted, in order, and `my_b_tell` counts them. While `write_pos` stays within `write_end`, nothing behind the
      buffer changes; only a `my_b_write_byte` whose flush made no room can end the run. */
  method RunWrites(cache: WriteCache, ops: seq<WriteOp>) returns (done: nat, ghost accepted: seq<seq<byte>>)
    requires cache.Valid()
    modifies cache, cache.memory
    ensures cache.Consistent() && done == |accepted| <= |ops|
    ensures forall i | 0 <= i < done :: Accepts(ops[i], accepted[i])
    ensures cache.Contents() == old(cache.Contents()) + Flatten(accepted)
    ensures cache.Tell() == old(cache.Tell()) + |Flatten(accepted)|
    ensures cache.Valid() ==> done == |ops| && cache.memory[cache.writeEnd..] == old(cache.memory[cache.writeEnd..])
    ensures !cache.Valid() ==> 0 < done && ops[done - 1].PutByte? && !ops[done - 1].flushMakesRoom
  {
    done, accepted := 0, [];
    assert Flatten([]) == [];
    while done < |ops| && cache.writePos <= cache.writeEnd
      invariant cache.Consistent() && done == |accepted| <= |ops|
      invariant cache.writeEnd == old(cache.writeEnd) && cache.requestPos == old(cache.requestPos)
      invariant forall i | 0 <= i < done :: Accepts(ops[i], accepted[i])
      invariant cache.Contents() == old(cache.Contents()) + Flatten(accepted)
      invariant cache.Valid() ==> cache.memory[cache.writeEnd..] == old(cache.memory[cache.writeEnd..])
      invariant !cache.Valid() ==> 0 < done && ops[done - 1].PutByte? && !ops[done - 1].flushMakesRoom
    {
      ghost var bytes := WriteOne(cache, ops[done]);
      FlattenAppend(accepted, bytes);
      Associative(old(cache.Contents()), Flatten(accepted), bytes);
      accepted := accepted + [bytes];
      done := done + 1;
    }
    cache.TellCountsContents();
  }

  /** Fills a buffer of any size and lets the flush of the next byte fail: the byte lands behind the buffer. */
  method FailedFlushOverruns(full: seq<byte>, c: byte) returns (cache: WriteCache)
    requires full != []
    ensures fresh(cache) && cache.Consistent() && cache.Contents() == full + [c]
    ensures cache.writePos == cache.writeEnd + 1 == |full| + 1 && cache.memory[cache.writeEnd] == c
  {
    cache := new WriteCache(0, |full|);
    var rc, n := cache.Write(full);
    assert full[..n] == full;
    cache.WriteByte(c, false);
  }

  /** Writing through one cache and reading the file through another: whatever the two sequences of calls, the two
      buffer sizes and the outcomes of the flushes, the reads hand out a prefix of what the writes accepted, in order
      and unchanged. When the flushes succeed, every call is made and the file holds all of it. */
  method WriteThenRead(puts: seq<WriteOp>, writeBuffer: nat, flushes: bool, gets: seq<ReadOp>, readBuffer: nat)
    returns (file: seq<byte>, delivered: seq<seq<byte>>, ok: seq<bool>, ghost accepted: seq<seq<byte>>)
    requires writeBuffer > 0
    ensures |accepted| <= |puts| && forall i | 0 <= i < |accepted| :: Accepts(puts[i], accepted[i])
    ensures FlushesMakeRoom(puts) ==> |accepted| == |puts|
    ensures FlushesMakeRoom(puts) && flushes ==> file == Flatten(accepted)
    ensures Flatten(delivered) <= file <= Flatten(accepted)
    ensures |delivered| == |ok| == |gets|
    ensures forall i | 0 <= i < |gets| :: HandsOut(gets[i], delivered[i], ok[i])
  {
    var writer := new WriteCache(0, writeBuffer);
    var done: nat;
    done, accepted := RunWrites(writer, puts);
    assert writer.Contents() == Flatten(accepted);
    if writer.writePos <= writer.writeEnd {
      writer.FlushAll(flushes);
    }
    file := writer.flushed;
    var reader := new ReadCache(file, 0, readBuffer);
    delivered, ok := RunReads(reader, gets);
  }
}
