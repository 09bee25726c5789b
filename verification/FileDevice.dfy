/**
 The local file server's device: reading a range directly, or chunk by chunk.
 */
module FileDevices {
  import opened Bytes
  import opened Chunks

  class FileDevice {
    /** The bytes of the file now; it may be shorter than the recorded size. */
    const file: Bytes
    const size: nat
    const chunkSize: int
    const reliable: bool

    constructor (file: Bytes, size: nat, chunkSize: int, reliable: bool)
      ensures this.file == file && this.size == size && this.chunkSize == chunkSize && this.reliable == reliable
    {
      this.file, this.size, this.chunkSize, this.reliable := file, size, chunkSize, reliable;
    }

    /** Range mode: one positioned read, cleared past the end of the file. */
    method ReadAtInto(offset: nat, dst: array<Byte>) returns (r: Result<nat>)
      modifies dst
      ensures r.Ok? ==> r.value == dst.Length && dst[..] == PaddedSlice(file, offset, dst.Length)
      ensures reliable ==> r.Ok?
    {
      var fails := OperationFails(reliable);
      if fails {
        return Err(Io);
      }
      var n := Max(0, Min(dst.Length, |file| - offset));
      forall i | 0 <= i < n {
        dst[i] := file[offset + i];
      }
      forall i | n <= i < dst.Length {
        dst[i] := 0;
      }
      r := Ok(dst.Length);
      assert dst[..] == PaddedSlice(file, offset, dst.Length);
    }

    /**
     Chunk mode: reads each touched chunk whole, clipped to the device, and
     copies its part. It ends, and fills the buffer exactly as range mode does;
     on an error the part already copied is right.
     */
    method ReadAtViaChunkInto(offset: nat, dst: array<Byte>) returns (r: Result<nat>, copied: nat)
      requires chunkSize > 0 && offset + dst.Length <= size
      modifies dst
      ensures copied <= dst.Length && dst[..copied] == PaddedSlice(file, offset, copied)
      ensures r.Ok? ==> r.value == copied == dst.Length && dst[..] == PaddedSlice(file, offset, dst.Length)
      ensures reliable ==> r.Ok?
    {
      copied := 0;
      while copied < dst.Length
        invariant copied <= dst.Length
        invariant forall i :: 0 <= i < copied ==> dst[i] == if offset + i < |file| then file[offset + i] else 0
        decreases dst.Length - copied
      {
        var readOffset := offset + copied;
        DivBounds(readOffset, chunkSize);
        var chunkStart := readOffset / chunkSize * chunkSize;
        var chunkEnd := Min(chunkStart + chunkSize, size);
        var fails := OperationFails(reliable);
        if fails {
          return Err(Io), copied;
        }
        var chunk := PaddedSlice(file, chunkStart, chunkEnd - chunkStart);
        var start := readOffset - chunkStart;
        var part := Min(|chunk| - start, dst.Length - copied);
        forall i | 0 <= i < part {
          dst[copied + i] := chunk[start + i];
        }
        copied := copied + part;
      }
      assert dst[..copied] == dst[..];
      r := Ok(copied);
    }
  }
}
