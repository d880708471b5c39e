/** Disk files, and blocks of data at a place in a file. */
module DataBlocks {
  import opened Arithmetic
  import opened Words
  import opened RowArrays

  /** A file on disk: reads beyond its end fail. */
  class DiskFile<B> {
    var content: seq<B>

    constructor (content: seq<B>)
      ensures this.content == content
    {
      this.content := content;
    }

    method Read(offset: nat, buffer: array<B>, start: nat, length: nat) returns (ok: bool)
      requires start + length <= buffer.Length
      modifies buffer
      ensures ok <==> length == 0 || offset + length <= |content|
      ensures ok && length > 0 ==> buffer[..] == Overwrite(old(buffer[..]), start, content[offset..offset + length])
      ensures length == 0 || !ok ==> buffer[..] == old(buffer[..])
    {
      if length == 0 {
        return true;
      }
      if offset + length > |content| {
        return false;
      }
      for i := 0 to length
        invariant forall j :: 0 <= j < buffer.Length ==>
                    buffer[j] == if start <= j < start + i then content[offset + j - start] else old(buffer[j])
      {
        buffer[start + i] := content[offset + i];
      }
      return true;
    }

    /** Replace bytes inside the file. */
    method Write(offset: nat, buffer: array<B>, start: nat, length: nat)
      requires start + length <= buffer.Length && offset + length <= |content|
      modifies this
      ensures content == Overwrite(old(content), offset, buffer[start..start + length])
    {
      content := content[..offset] + buffer[start..start + length] + content[offset + length..];
    }
  }

  /** Byte `i` of a block; past its end blocks read as zero. */
  function Padded(s: seq<u8>, i: nat): u8 {
    if i < |s| then s[i] else Zeros(8)
  }

  class DataBlock {
    const diskfile: DiskFile?<u8>  // null when the block has not been found
    const offset: nat
    const length: nat

    constructor (diskfile: DiskFile?<u8>, offset: nat, length: nat)
      ensures this.diskfile == diskfile && this.offset == offset && this.length == length
    {
      this.diskfile, this.offset, this.length := diskfile, offset, length;
    }

    predicate IsSet() {
      diskfile != null
    }

    /** The block lies inside its file. */
    predicate Inside()
      reads diskfile
    {
      diskfile != null && offset + length <= |diskfile.content|
    }

    function Bytes(): (s: seq<u8>)
      requires Inside()
      reads diskfile
      ensures |s| == length
    {
      diskfile.content[offset..offset + length]
    }

    /** Fill a buffer with the bytes from `position` on. Beyond the end of the block or of the file it is zeroed. */
    method ReadData(position: nat, size: nat, buffer: array<u8>) returns (ok: bool)
      requires diskfile != null && size <= buffer.Length
      modifies buffer
      ensures ok <==> (position < length && size > 0 ==> offset + position <= |diskfile.content|)
      ensures ok ==> forall i :: 0 <= i < size ==>
                buffer[i] == if position + i < length && offset + position + i < |diskfile.content|
                             then diskfile.content[offset + position + i] else Zeros(8)
      ensures ok && Inside() ==> forall i :: 0 <= i < size ==> buffer[i] == Padded(Bytes(), position + i)
    {
      if length > position {
        var fileoffset := offset + position;
        // An offset past the end of the file makes the unsigned difference huge.
        var left := if fileoffset <= |diskfile.content| then |diskfile.content| - fileoffset else size;
        var want := Min(Min(size, length - position), left);
        ok := diskfile.Read(fileoffset, buffer, 0, want);
        if !ok {
          return;
        }
        for i := want to size
          invariant forall j :: 0 <= j < want ==> buffer[j] == diskfile.content[fileoffset + j]
          invariant forall j :: want <= j < i ==> buffer[j] == Zeros(8)
        {
          buffer[i] := Zeros(8);
        }
      } else {
        for i := 0 to size
          invariant forall j :: 0 <= j < i ==> buffer[j] == Zeros(8)
        {
          buffer[i] := Zeros(8);
        }
        ok := true;
      }
    }

    /** The part of a write at `position` that falls inside the block. */
    function Have(position: nat, size: nat): nat {
      if length > position then Min(size, length - position) else 0
    }

    /** Write the bytes that fall inside the block and drop the others. */
    method WriteData(position: nat, size: nat, buffer: array<u8>, start: nat) returns (wrote: nat)
      requires Inside() && start + size <= buffer.Length
      modifies diskfile
      ensures wrote == Have(position, size)
      ensures wrote == 0 ==> diskfile.content == old(diskfile.content)
      ensures wrote > 0 ==> offset + position + wrote <= |old(diskfile.content)|
      ensures wrote > 0 ==>
                diskfile.content == Overwrite(old(diskfile.content), offset + position, buffer[start..start + wrote])
    {
      wrote := 0;
      if length > position {
        var have := Min(size, length - position);
        diskfile.Write(offset + position, buffer, start, have);
        wrote := have;
      }
    }
  }
}
