/** Rebuilding missing files from recovery volumes, one chunk of every file at a time. */
module Par1Repairer {
  import opened Words
  import opened Fields
  import opened Vectors
  import opened RowArrays
  import opened ReedSolomonMatrix
  import opened MultiplyBuffers
  import opened DataBlocks
  import opened Par1Sums
  import opened Arithmetic
  import RS = ReedSolomon

  /** Where a source file was found complete, and where it is rebuilt if it was not. */
  datatype SourceFile = SourceFile(sourceblock: DataBlock, targetblock: DataBlock)

  /** A recovery volume; volumes are kept in ascending order of exponent. */
  datatype RecoveryBlock = RecoveryBlock(exponent: nat, block: DataBlock)

  /** The bytes at position `j` of every input. */
  function Column(bytes: seq<seq<u8>>, j: nat): (d: seq<u8>)
    ensures |d| == |bytes|
  {
    seq<u8>(|bytes|, k requires 0 <= k < |bytes| => Padded(bytes[k], j))
  }

  function Columns(bytes: seq<seq<u8>>, position: nat, len: nat): (s: seq<seq<u8>>)
    ensures |s| == len && forall i :: 0 <= i < len ==> s[i] == Column(bytes, position + i)
  {
    seq<seq<u8>>(len, i requires 0 <= i < len => Column(bytes, position + i))
  }

  /** The rows of the matrix that `Process` reads. */
  ghost function MatrixRows(s: seq<u8>, rows: nat, cols: nat): (m: seq<seq<u8>>)
    requires |s| == rows * cols
    ensures |m| == rows && forall o :: 0 <= o < rows ==> m[o] == RowOf(s, rows, cols, o) && |m[o]| == cols
  {
    seq<seq<u8>>(rows, o requires 0 <= o < rows => RowOf(s, rows, cols, o))
  }

  /** The blocks hold the given bytes. */
  ghost predicate AllHold(blocks: seq<DataBlock>, bytes: seq<seq<u8>>)
    reads set b | b in blocks :: b.diskfile
  {
    && |bytes| == |blocks|
    && forall k :: 0 <= k < |blocks| ==> blocks[k].Inside() && blocks[k].Bytes() == bytes[k]
  }

  /** Every row of the output buffer is the sum of the inputs with the factors of its row of the matrix. */
  ghost predicate AllSummed(g: Field<u8>, matrix: seq<u8>, buffer: seq<u8>, outputs: nat, alignment: nat,
                            bytes: seq<seq<u8>>, position: nat, len: nat)
  {
    && |matrix| == outputs * |bytes| && |buffer| == outputs * alignment && len <= alignment
    && var m := MatrixRows(matrix, outputs, |bytes|);
       forall o, i :: 0 <= o < outputs && 0 <= i < len ==>
         RowOf(buffer, outputs, alignment, o)[i] == Dot(g, m[o], Column(bytes, position + i))
  }

  /** Clear the output buffer, then add every input's share to every output. */
  method AccumulateOutputs(rs: RS.ReedSolomon, inputblocks: seq<DataBlock>, outputs: nat, position: nat, len: nat,
                           inputbuffer: array<u8>, outputbuffer: array<u8>, alignment: nat, ghost bytes: seq<seq<u8>>)
    returns (ok: bool)
    requires rs.Valid() && outputs == rs.datamissing + rs.parmissing && |inputblocks| == rs.datapresent + rs.datamissing
    requires rs.leftmatrix.Length == outputs * |inputblocks|
    requires AllHold(inputblocks, bytes)
    requires inputbuffer != outputbuffer && len <= inputbuffer.Length && len <= alignment
    requires outputbuffer.Length == outputs * alignment
    requires inputbuffer != rs.leftmatrix && outputbuffer != rs.leftmatrix
    requires inputbuffer != rs.database && outputbuffer != rs.database
    requires inputbuffer != rs.glmt.tables && outputbuffer != rs.glmt.tables
    modifies inputbuffer, outputbuffer
    ensures ok
    ensures AllSummed(rs.g, rs.leftmatrix[..], outputbuffer[..], outputs, alignment, bytes, position, len)
  {
    var g := rs.g;
    ghost var m, columns := MatrixRows(rs.leftmatrix[..], outputs, |inputblocks|), Columns(bytes, position, len);
    ClearBuffer(g, outputbuffer);
    NothingSummed(g, m, columns, outputbuffer[..], alignment);
    for inputindex := 0 to |inputblocks|
      invariant PartlySummed(g, m, columns, outputbuffer[..], alignment, inputindex, 0)
      invariant AllHold(inputblocks, bytes)
    {
      var read := inputblocks[inputindex].ReadData(position, len, inputbuffer);
      ProcessInput(rs, outputs, inputindex, |inputblocks|, len, inputbuffer, outputbuffer, alignment, m, columns);
    }
    EverythingSummed(g, m, columns, outputbuffer[..], alignment, |inputblocks|);
    ok := true;
  }

  method ClearBuffer(g: Field<u8>, buffer: array<u8>)
    modifies buffer
    ensures forall j :: 0 <= j < buffer.Length ==> buffer[j] == g.zero
  {
    for i := 0 to buffer.Length
      invariant forall j :: 0 <= j < i ==> buffer[j] == g.zero
    {
      buffer[i] := g.zero;
    }
  }

  /** One input's share of every output. */
  method ProcessInput(rs: RS.ReedSolomon, outputs: nat, inputindex: nat, inputs: nat, len: nat, inputbuffer: array<u8>,
                      outputbuffer: array<u8>, alignment: nat, ghost m: seq<seq<u8>>, ghost columns: seq<seq<u8>>)
    requires Everywhere(rs.g) && AddsByXor(rs.g) && rs.glmt.Holds(rs.g)
    requires outputs == rs.datamissing + rs.parmissing && inputs == rs.datapresent + rs.datamissing
    requires rs.leftmatrix.Length == outputs * inputs && inputindex < inputs
    requires m == MatrixRows(rs.leftmatrix[..], outputs, inputs)
    requires inputbuffer != outputbuffer && len <= inputbuffer.Length && len <= alignment
    requires outputbuffer.Length == outputs * alignment
    requires outputbuffer != rs.leftmatrix && outputbuffer != rs.glmt.tables
    requires |columns| == len && forall i :: 0 <= i < len ==>
               |columns[i]| == inputs && inputbuffer[i] == columns[i][inputindex]
    requires PartlySummed(rs.g, m, columns, outputbuffer[..], alignment, inputindex, 0)
    modifies outputbuffer
    ensures PartlySummed(rs.g, m, columns, outputbuffer[..], alignment, inputindex + 1, 0)
  {
    ghost var g := rs.g;
    for outputindex := 0 to outputs
      invariant PartlySummed(g, m, columns, outputbuffer[..], alignment, inputindex, outputindex)
    {
      ghost var before := outputbuffer[..];
      RowFits(outputs, alignment, outputindex);
      ghost var factor := rs.GetFactor(inputindex, outputindex);
      FactorIsEntry(rs, inputindex, outputindex);
      rs.Process(len, inputindex, inputbuffer, outputindex, outputbuffer, outputindex * alignment);
      RowTakesInput(g, Accumulator(g, factor), m, columns, before, outputbuffer[..], inputbuffer[..], alignment,
                    inputindex, outputindex);
    }
    InputTaken(g, m, columns, outputbuffer[..], alignment, inputindex);
  }

  lemma FactorIsEntry(rs: RS.ReedSolomon, inputindex: nat, outputindex: nat)
    requires rs.leftmatrix.Length == (rs.datamissing + rs.parmissing) * (rs.datapresent + rs.datamissing)
    requires inputindex < rs.datapresent + rs.datamissing && outputindex < rs.datamissing + rs.parmissing
    ensures rs.GetFactor(inputindex, outputindex)
         == RowOf(rs.leftmatrix[..], rs.datamissing + rs.parmissing, rs.datapresent + rs.datamissing,
                  outputindex)[inputindex]
  {
    RowFits(rs.datamissing + rs.parmissing, rs.datapresent + rs.datamissing, outputindex);
  }

  /** The target file agrees with the original up to `upto`, and is as long. */
  ghost predicate Restored(b: DataBlock, original: seq<u8>, upto: nat)
    reads b.diskfile
  {
    && b.Inside() && b.offset == 0 && b.length == |original| == |b.diskfile.content|
    && b.diskfile.content[..Min(|original|, upto)] == original[..Min(|original|, upto)]
  }

  /** No two blocks share a file. */
  ghost predicate Separate(blocks: seq<DataBlock>)
  {
    forall i, j :: 0 <= i < j < |blocks| ==> blocks[i].diskfile != blocks[j].diskfile
  }

  lemma WriteRestores(original: seq<u8>, before: seq<u8>, after: seq<u8>, position: nat, len: nat, part: seq<u8>)
    requires |before| == |original| && before[..Min(|original|, position)] == original[..Min(|original|, position)]
    requires |part| == if |original| > position then Min(len, |original| - position) else 0
    requires forall i :: 0 <= i < |part| ==> part[i] == Padded(original, position + i)
    requires |part| == 0 ==> after == before
    requires |part| > 0 ==> after == Overwrite(before, position, part)
    ensures |after| == |original|
    ensures after[..Min(|original|, position + len)] == original[..Min(|original|, position + len)]
  {
    var n := Min(|original|, position + len);
    if |part| > 0 {
      forall i | 0 <= i < n ensures after[i] == original[i] {
        if i < position {
          assert before[..position][i] == original[..position][i];
        } else {
          assert after[i] == part[i - position];
        }
      }
    } else {
      assert n == Min(|original|, position);
    }
  }

  /** Every target file is restored up to `upto`. */
  ghost predicate Progress(outputblocks: seq<DataBlock>, files: seq<seq<u8>>, missing: seq<nat>, upto: nat)
    reads set b | b in outputblocks :: b.diskfile
  {
    && |outputblocks| == |missing|
    && forall o :: 0 <= o < |missing| ==> missing[o] < |files| && Restored(outputblocks[o], files[missing[o]], upto)
  }

  /** The rows of the output buffer are the bytes of the missing files from a position on. */
  ghost predicate RowsHold(buffer: seq<u8>, outputs: nat, alignment: nat, files: seq<seq<u8>>, missing: seq<nat>,
                           position: nat, len: nat)
  {
    && |buffer| == outputs * alignment && len <= alignment && outputs <= |missing|
    && (forall o :: 0 <= o < outputs ==> missing[o] < |files|)
    && forall o, i :: 0 <= o < outputs && 0 <= i < len ==>
         RowOf(buffer, outputs, alignment, o)[i] == Padded(files[missing[o]], position + i)
  }

  /** Write every output's chunk to its target file. */
  method WriteOutputs(outputblocks: seq<DataBlock>, position: nat, len: nat, outputbuffer: array<u8>, alignment: nat,
                      ghost files: seq<seq<u8>>, ghost missing: seq<nat>)
    requires outputbuffer.Length == |outputblocks| * alignment && len <= alignment
    requires Separate(outputblocks) && Progress(outputblocks, files, missing, position)
    requires RowsHold(outputbuffer[..], |outputblocks|, alignment, files, missing, position, len)
    modifies set b | b in outputblocks :: b.diskfile
    ensures Progress(outputblocks, files, missing, position + len)
  {
    for o := 0 to |outputblocks|
      invariant forall q :: 0 <= q < |outputblocks| ==>
                  Restored(outputblocks[q], files[missing[q]], if q < o then position + len else position)
    {
      RowFits(|outputblocks|, alignment, o);
      ghost var before := outputblocks[o].diskfile.content;
      ghost var row := RowOf(outputbuffer[..], |outputblocks|, alignment, o);
      var wrote := outputblocks[o].WriteData(position, len, outputbuffer, o * alignment);
      ghost var part := row[..wrote];
      assert outputbuffer[o * alignment..o * alignment + wrote] == part;
      WriteRestores(files[missing[o]], before, outputblocks[o].diskfile.content, position, len, part);
    }
  }

  // What the recovery volumes promise, and why the sums are the missing bytes.

  /** Recovery volume `r` holds, at every position, the parity of the files with its exponent. */
  ghost predicate RecoveryOf(g: Field<u8>, files: seq<seq<u8>>, blocksize: nat, exponents: seq<nat>,
                             volumes: seq<seq<u8>>) {
    && |volumes| == |exponents|
    && forall r :: 0 <= r < |volumes| ==> VolumeOf(g, files, blocksize, exponents[r], volumes[r])
  }

  ghost predicate VolumeOf(g: Field<u8>, files: seq<seq<u8>>, blocksize: nat, exponent: nat, volume: seq<u8>) {
    |volume| == blocksize && exists bases :: VolumeWith(g, files, exponent, volume, bases)
  }

  /** Every byte is the sum of the bytes of the files, each times the power of its base: file `k` has the 8-bit number
      `k + 1`. */
  ghost predicate VolumeWith(g: Field<u8>, files: seq<seq<u8>>, exponent: nat, volume: seq<u8>, bases: seq<u8>) {
    && |bases| == |files| && RS.Counted(bases)
    && forall j :: 0 <= j < |volume| ==> volume[j] == Dot(g, PowersOf(g, bases, exponent), Column(files, j))
  }

  ghost function PowersOf(g: Field<u8>, bases: seq<u8>, exponent: nat): (s: seq<u8>)
    ensures |s| == |bases| && forall k :: 0 <= k < |s| ==> s[k] == g.Power(bases[k], exponent)
  {
    seq<u8>(|bases|, k requires 0 <= k < |bases| => g.Power(bases[k], exponent))
  }

  lemma VolumeIsParity(g: Field<u8>, files: seq<seq<u8>>, blocksize: nat, exponent: nat, volume: seq<u8>, j: nat)
    requires VolumeOf(g, files, blocksize, exponent, volume) && j < blocksize
    ensures volume[j] == Parity(g, RS.ByteBase, Column(files, j), exponent)
  {
    var bases :| VolumeWith(g, files, exponent, volume, bases);
    var powers := TruePowers(g, RS.ByteBase, |files|, exponent);
    forall k | 0 <= k < |files| ensures PowersOf(g, bases, exponent)[k] == powers[k] {
      RS.CountedIsBase(bases, k);
    }
    assert PowersOf(g, bases, exponent) == powers;
  }

  lemma InputColumn(g: Field<u8>, l: Layout, files: seq<seq<u8>>, blocksize: nat, volumes: seq<seq<u8>>, j: nat)
    requires l.Fits() && l.Indexes(|files|) && |l.exponents| == |l.missing| && j < blocksize
    requires RecoveryOf(g, files, blocksize, l.exponents, volumes)
    ensures Column(Gather(files, l.present) + volumes, j) == l.Known(g, RS.ByteBase, Column(files, j))
  {
    var d := Column(files, j);
    var c, v := Column(Gather(files, l.present) + volumes, j), l.Known(g, RS.ByteBase, d);
    forall k | 0 <= k < |c| ensures c[k] == v[k] {
      if k >= |l.present| {
        var r := k - |l.present|;
        assert VolumeOf(g, files, blocksize, l.exponents[r], volumes[r]);
        VolumeIsParity(g, files, blocksize, l.exponents[r], volumes[r], j);
      }
    }
  }

  /** Each solved row applied to the bytes read at position `j` gives byte `j` of the missing file. */
  lemma RowRecovers(g: Field<u8>, flags: seq<bool>, l: Layout, files: seq<seq<u8>>, blocksize: nat,
                    volumes: seq<seq<u8>>, s: seq<u8>, j: nat)
    requires Everywhere(g) && Describes(l, flags) && |files| == |flags| && |l.exponents| == |l.missing|
    requires l.ExponentsWithin(g) && l.Solves(g, RS.ByteBase) && RS.IsSolved(g, RS.ByteBase, l, s)
    requires RecoveryOf(g, files, blocksize, l.exponents, volumes) && j < blocksize
    ensures var m := MatrixRows(s, |l.missing|, |l.present| + |l.missing|);
            forall o :: 0 <= o < |l.missing| ==>
              |m[o]| == |Column(Gather(files, l.present) + volumes, j)| &&
              Dot(g, m[o], Column(Gather(files, l.present) + volumes, j)) == Padded(files[l.missing[o]], j)
  {
    var d := Column(files, j);
    InputColumn(g, l, files, blocksize, volumes, j);
    SolvedReconstructs(g, RS.ByteBase, flags, l, d);
  }

  /** The matrix has been solved for the volumes that are read. */
  ghost predicate MatrixReady(rs: RS.ReedSolomon, files: seq<seq<u8>>, blocksize: nat, volumes: seq<seq<u8>>)
    reads rs, rs.datapresentindex, rs.datamissingindex, rs.database, rs.glmt.tables, rs.leftmatrix
  {
    && rs.Valid() && rs.parmissing == 0 && rs.parpresent == rs.datamissing && |rs.flags| == |files|
    && rs.Plan().ExponentsWithin(rs.g) && rs.Plan().Solves(rs.g, RS.ByteBase)
    && RS.IsSolved(rs.g, RS.ByteBase, rs.Plan(), rs.leftmatrix[..])
    && RecoveryOf(rs.g, files, blocksize, rs.Plan().exponents, volumes)
  }

  lemma RowsRecover(g: Field<u8>, flags: seq<bool>, l: Layout, files: seq<seq<u8>>, blocksize: nat,
                    volumes: seq<seq<u8>>, s: seq<u8>, buffer: seq<u8>, alignment: nat, position: nat, len: nat)
    requires Everywhere(g) && Describes(l, flags) && |files| == |flags| && |l.exponents| == |l.missing|
    requires l.ExponentsWithin(g) && l.Solves(g, RS.ByteBase) && RS.IsSolved(g, RS.ByteBase, l, s)
    requires RecoveryOf(g, files, blocksize, l.exponents, volumes) && position + len <= blocksize
    requires AllSummed(g, s, buffer, |l.missing|, alignment, Gather(files, l.present) + volumes, position, len)
    ensures RowsHold(buffer, |l.missing|, alignment, files, l.missing, position, len)
  {
    forall o, i | 0 <= o < |l.missing| && 0 <= i < len
      ensures RowOf(buffer, |l.missing|, alignment, o)[i] == Padded(files[l.missing[o]], position + i)
    {
      RowRecovers(g, flags, l, files, blocksize, volumes, s, position + i);
    }
  }

  /** Everything the repair relies on. */
  ghost predicate ReadyToRepair(rs: RS.ReedSolomon, inputblocks: seq<DataBlock>, outputblocks: seq<DataBlock>,
                                files: seq<seq<u8>>, blocksize: nat, volumes: seq<seq<u8>>)
    reads rs, rs.datapresentindex, rs.datamissingindex, rs.database, rs.glmt.tables, rs.leftmatrix
    reads set b | b in inputblocks :: b.diskfile
  {
    && MatrixReady(rs, files, blocksize, volumes)
    && AllHold(inputblocks, Gather(files, rs.Plan().present) + volumes)
    && |outputblocks| == rs.datamissing && Separate(outputblocks)
    && forall o, k :: 0 <= o < |outputblocks| && 0 <= k < |inputblocks| ==>
        outputblocks[o].diskfile != inputblocks[k].diskfile
  }

  /** The buffers are nobody else's, and there is a row for every output. */
  ghost predicate OwnBuffers(rs: RS.ReedSolomon, inputbuffer: array<u8>, outputbuffer: array<u8>, outputs: nat,
                             alignment: nat)
    reads rs
  {
    && outputbuffer.Length == outputs * alignment
    && inputbuffer != outputbuffer
    && inputbuffer !in {rs.leftmatrix, rs.database, rs.glmt.tables}
    && outputbuffer !in {rs.leftmatrix, rs.database, rs.glmt.tables}
  }

  /** Rebuild one chunk of every missing file in memory. */
  method RecoverChunk(rs: RS.ReedSolomon, inputblocks: seq<DataBlock>, outputs: nat, blockoffset: nat, blocklength: nat,
                      inputbuffer: array<u8>, outputbuffer: array<u8>, alignment: nat,
                      ghost files: seq<seq<u8>>, ghost blocksize: nat, ghost volumes: seq<seq<u8>>)
    requires MatrixReady(rs, files, blocksize, volumes)
    requires AllHold(inputblocks, Gather(files, rs.Plan().present) + volumes)
    requires OwnBuffers(rs, inputbuffer, outputbuffer, outputs, alignment) && blockoffset + blocklength <= blocksize
    requires outputs == rs.datamissing
    requires blocklength <= inputbuffer.Length && blocklength <= alignment
    modifies inputbuffer, outputbuffer
    ensures RowsHold(outputbuffer[..], outputs, alignment, files, rs.Plan().missing, blockoffset, blocklength)
  {
    ghost var l := rs.Plan();
    var ok := AccumulateOutputs(rs, inputblocks, outputs, blockoffset, blocklength, inputbuffer, outputbuffer,
                                alignment, Gather(files, l.present) + volumes);
    RowsRecover(rs.g, rs.flags, l, files, blocksize, volumes, rs.leftmatrix[..], outputbuffer[..], alignment,
                blockoffset, blocklength);
  }

  /** Rebuild one chunk of every missing file. */
  method ProcessData(rs: RS.ReedSolomon, inputblocks: seq<DataBlock>, outputblocks: seq<DataBlock>, blockoffset: nat,
                     blocklength: nat, inputbuffer: array<u8>, outputbuffer: array<u8>, alignment: nat,
                     ghost files: seq<seq<u8>>, ghost blocksize: nat, ghost volumes: seq<seq<u8>>)
    requires ReadyToRepair(rs, inputblocks, outputblocks, files, blocksize, volumes)
    requires OwnBuffers(rs, inputbuffer, outputbuffer, |outputblocks|, alignment)
    requires blockoffset + blocklength <= blocksize
    requires blocklength <= inputbuffer.Length && blocklength <= alignment
    requires Progress(outputblocks, files, rs.Plan().missing, blockoffset)
    modifies inputbuffer, outputbuffer, set b | b in outputblocks :: b.diskfile
    ensures ReadyToRepair(rs, inputblocks, outputblocks, files, blocksize, volumes)
    ensures Progress(outputblocks, files, rs.Plan().missing, blockoffset + blocklength)
  {
    RecoverReady(rs, inputblocks, outputblocks, blockoffset, blocklength, inputbuffer, outputbuffer, alignment, files,
                 blocksize, volumes);
    WriteReady(rs, inputblocks, outputblocks, blockoffset, blocklength, outputbuffer, alignment, files, blocksize,
               volumes);
  }

  method RecoverReady(rs: RS.ReedSolomon, inputblocks: seq<DataBlock>, outputblocks: seq<DataBlock>, blockoffset: nat,
                      blocklength: nat, inputbuffer: array<u8>, outputbuffer: array<u8>, alignment: nat,
                      ghost files: seq<seq<u8>>, ghost blocksize: nat, ghost volumes: seq<seq<u8>>)
    requires ReadyToRepair(rs, inputblocks, outputblocks, files, blocksize, volumes)
    requires OwnBuffers(rs, inputbuffer, outputbuffer, |outputblocks|, alignment)
    requires blockoffset + blocklength <= blocksize
    requires blocklength <= inputbuffer.Length && blocklength <= alignment
    modifies inputbuffer, outputbuffer
    ensures ReadyToRepair(rs, inputblocks, outputblocks, files, blocksize, volumes)
    ensures RowsHold(outputbuffer[..], |outputblocks|, alignment, files, rs.Plan().missing, blockoffset, blocklength)
  {
    RecoverChunk(rs, inputblocks, |outputblocks|, blockoffset, blocklength, inputbuffer, outputbuffer, alignment, files,
                 blocksize, volumes);
  }

  method WriteReady(rs: RS.ReedSolomon, ghost inputblocks: seq<DataBlock>, outputblocks: seq<DataBlock>,
                    blockoffset: nat, blocklength: nat, outputbuffer: array<u8>, alignment: nat,
                    ghost files: seq<seq<u8>>, ghost blocksize: nat, ghost volumes: seq<seq<u8>>)
    requires ReadyToRepair(rs, inputblocks, outputblocks, files, blocksize, volumes)
    requires RowsHold(outputbuffer[..], |outputblocks|, alignment, files, rs.Plan().missing, blockoffset, blocklength)
    requires Progress(outputblocks, files, rs.Plan().missing, blockoffset)
    modifies set b | b in outputblocks :: b.diskfile
    ensures ReadyToRepair(rs, inputblocks, outputblocks, files, blocksize, volumes)
    ensures Progress(outputblocks, files, rs.Plan().missing, blockoffset + blocklength)
  {
    WriteOutputs(outputblocks, blockoffset, blocklength, outputbuffer, alignment, files, rs.Plan().missing);
    forall k | 0 <= k < |inputblocks| ensures unchanged(inputblocks[k].diskfile) {
      assert forall o :: 0 <= o < |outputblocks| ==> outputblocks[o].diskfile != inputblocks[k].diskfile;
    }
  }

  /** The chunk loop of `Process`. */
  method ProcessChunks(rs: RS.ReedSolomon, inputblocks: seq<DataBlock>, outputblocks: seq<DataBlock>, blocksize: nat,
                       chunksize: nat, inputbuffer: array<u8>, outputbuffer: array<u8>, alignment: nat,
                       ghost files: seq<seq<u8>>, ghost volumes: seq<seq<u8>>)
    requires ReadyToRepair(rs, inputblocks, outputblocks, files, blocksize, volumes)
    requires OwnBuffers(rs, inputbuffer, outputbuffer, |outputblocks|, alignment) && chunksize <= inputbuffer.Length
    requires chunksize <= alignment
    requires blocksize > 0 ==> chunksize > 0
    requires Progress(outputblocks, files, rs.Plan().missing, 0)
    modifies inputbuffer, outputbuffer, set b | b in outputblocks :: b.diskfile
    ensures rs.flags == old(rs.flags) && Progress(outputblocks, files, Positions(rs.flags, false), blocksize)
  {
    var blockoffset: nat := 0;
    while blockoffset < blocksize
      invariant blockoffset <= blocksize
      invariant ReadyToRepair(rs, inputblocks, outputblocks, files, blocksize, volumes)
      invariant Progress(outputblocks, files, rs.Plan().missing, blockoffset)
    {
      blockoffset := ProcessChunk(rs, inputblocks, outputblocks, blocksize, chunksize, blockoffset,
                                  inputbuffer, outputbuffer, alignment, files, volumes);
    }
  }

  /** One chunk, and where the next one begins. */
  method ProcessChunk(rs: RS.ReedSolomon, inputblocks: seq<DataBlock>, outputblocks: seq<DataBlock>, blocksize: nat,
                      chunksize: nat, blockoffset: nat, inputbuffer: array<u8>, outputbuffer: array<u8>, alignment: nat,
                      ghost files: seq<seq<u8>>, ghost volumes: seq<seq<u8>>)
    returns (next: nat)
    requires ReadyToRepair(rs, inputblocks, outputblocks, files, blocksize, volumes)
    requires OwnBuffers(rs, inputbuffer, outputbuffer, |outputblocks|, alignment)
    requires 0 < chunksize <= inputbuffer.Length && chunksize <= alignment && blockoffset < blocksize
    requires Progress(outputblocks, files, rs.Plan().missing, blockoffset)
    modifies inputbuffer, outputbuffer, set b | b in outputblocks :: b.diskfile
    ensures blockoffset < next <= blocksize
    ensures ReadyToRepair(rs, inputblocks, outputblocks, files, blocksize, volumes)
    ensures Progress(outputblocks, files, rs.Plan().missing, next)
  {
    var blocklength := Min(chunksize, blocksize - blockoffset);
    ProcessData(rs, inputblocks, outputblocks, blockoffset, blocklength, inputbuffer, outputbuffer, alignment, files,
                blocksize, volumes);
    next := blockoffset + blocklength;
  }

  // Buffer sizes.

  /** How much of every block is worked on at a time: all of it if it fits in memory, otherwise a multiple of four. */
  function ChunkSize(blocksize: nat, outputs: nat, memorylimit: nat): (chunksize: nat)
    ensures chunksize <= blocksize && chunksize * outputs <= memorylimit
    ensures blocksize * outputs <= memorylimit ==> chunksize == blocksize
    ensures blocksize * outputs > memorylimit ==> chunksize % 4 == 0 && (chunksize + 4) * outputs > memorylimit
  {
    if blocksize * outputs > memorylimit then
      (DivBelow(memorylimit, outputs, blocksize);
       ChunkFills(memorylimit, outputs);
       memorylimit / outputs / 4 * 4)
    else blocksize
  }

  /** A multiple of four for every output; four more would be too many. */
  lemma ChunkFills(memorylimit: nat, outputs: nat)
    requires outputs > 0
    ensures var chunk := memorylimit / outputs / 4 * 4;
            && chunk <= memorylimit / outputs && chunk % 4 == 0
            && chunk * outputs <= memorylimit < (chunk + 4) * outputs
  {
    var share := memorylimit / outputs;
    var chunk := share / 4 * 4;
    DivMod(memorylimit, outputs);
    MulMono(chunk, share, outputs);
    MulMono(share + 1, chunk + 4, outputs);
    assert (share + 1) * outputs == share * outputs + outputs;
  }

  /** Two outputs of a hundred bytes each in seven bytes of memory: no chunk at all. */
  lemma NoChunk()
    ensures ChunkSize(100, 2, 7) == 0
  {}

  /** The loop over the chunks makes progress exactly when everything fits in memory at once or four bytes of every
      output do. */
  lemma ChunksAdvance(blocksize: nat, outputs: nat, memorylimit: nat)
    requires blocksize > 0
    ensures ChunkSize(blocksize, outputs, memorylimit) > 0 <==>
              blocksize * outputs <= memorylimit || 4 * outputs <= memorylimit
  {
    if blocksize * outputs > memorylimit {
      DivMod(memorylimit, outputs);
      if memorylimit / outputs >= 4 {
        MulMono(4, memorylimit / outputs, outputs);
      }
    }
  }

  /** Round up to whole 32-bit words. */
  function Aligned(size: nat): (alignment: nat)
    ensures size <= alignment < size + 4 && alignment % 4 == 0
  {
    (size + 3) / 4 * 4
  }

  // Choosing what to read and what to write.

  function SourceBlocks(sourcefiles: seq<SourceFile>): (s: seq<DataBlock>)
    ensures |s| == |sourcefiles| && forall k :: 0 <= k < |s| ==> s[k] == sourcefiles[k].sourceblock
  {
    seq<DataBlock>(|sourcefiles|, k requires 0 <= k < |sourcefiles| => sourcefiles[k].sourceblock)
  }

  function TargetBlocks(sourcefiles: seq<SourceFile>): (s: seq<DataBlock>)
    ensures |s| == |sourcefiles| && forall k :: 0 <= k < |s| ==> s[k] == sourcefiles[k].targetblock
  {
    seq<DataBlock>(|sourcefiles|, k requires 0 <= k < |sourcefiles| => sourcefiles[k].targetblock)
  }

  function Volumes(recoveryblocks: seq<RecoveryBlock>): (s: seq<DataBlock>)
    ensures |s| == |recoveryblocks| && forall r :: 0 <= r < |s| ==> s[r] == recoveryblocks[r].block
  {
    seq<DataBlock>(|recoveryblocks|, r requires 0 <= r < |recoveryblocks| => recoveryblocks[r].block)
  }

  function VolumeExponents(recoveryblocks: seq<RecoveryBlock>): (s: seq<nat>)
    ensures |s| == |recoveryblocks| && forall r :: 0 <= r < |s| ==> s[r] == recoveryblocks[r].exponent
  {
    seq<nat>(|recoveryblocks|, r requires 0 <= r < |recoveryblocks| => recoveryblocks[r].exponent)
  }

  /** Which source files were found. */
  function Found(sourcefiles: seq<SourceFile>): (flags: seq<bool>)
    ensures |flags| == |sourcefiles| && forall k :: 0 <= k < |flags| ==> flags[k] == sourcefiles[k].sourceblock.IsSet()
  {
    var blocks := SourceBlocks(sourcefiles);
    seq<bool>(|blocks|, k requires 0 <= k < |blocks| => blocks[k].IsSet())
  }

  /** Files that were found are read, the others are written. */
  method SelectFiles(sourcefiles: seq<SourceFile>)
    returns (present: seq<bool>, inputblocks: seq<DataBlock>, outputblocks: seq<DataBlock>)
    ensures present == Found(sourcefiles)
    ensures inputblocks == Gather(SourceBlocks(sourcefiles), Positions(present, true))
    ensures outputblocks == Gather(TargetBlocks(sourcefiles), Positions(present, false))
  {
    present, inputblocks, outputblocks := [], [], [];
    ghost var flags := Found(sourcefiles);
    for k := 0 to |sourcefiles|
      invariant present == flags[..k]
      invariant inputblocks == Gather(SourceBlocks(sourcefiles), Positions(flags[..k], true))
      invariant outputblocks == Gather(TargetBlocks(sourcefiles), Positions(flags[..k], false))
    {
      assert flags[..k + 1][..k] == flags[..k];
      if sourcefiles[k].sourceblock.IsSet() {
        present := present + [true];
        inputblocks := inputblocks + [sourcefiles[k].sourceblock];
      } else {
        present := present + [false];
        outputblocks := outputblocks + [sourcefiles[k].targetblock];
      }
    }
    assert flags[..|sourcefiles|] == flags;
  }

  /** Take recovery volumes, lowest exponents first, until there are as many inputs as source files. */
  method SelectVolumes(rs: RS.ReedSolomon, recoveryblocks: seq<RecoveryBlock>, found: seq<DataBlock>, count: nat)
    returns (inputblocks: seq<DataBlock>)
    requires rs.Valid() && rs.outputrows == [] && |found| <= count <= |found| + |recoveryblocks|
    modifies rs`outputrows, rs`outputcount, rs`parpresent, rs`parmissing
    ensures rs.Valid()
    ensures var used := recoveryblocks[..count - |found|];
            && inputblocks == found + Volumes(used)
            && Exponents(rs.outputrows, true) == VolumeExponents(used)
            && Exponents(rs.outputrows, false) == []
  {
    inputblocks := found;
    var r: nat := 0;
    while |inputblocks| < count
      invariant rs.Valid() && |inputblocks| == |found| + r <= count
      invariant inputblocks == found + Volumes(recoveryblocks[..r])
      invariant Exponents(rs.outputrows, true) == VolumeExponents(recoveryblocks[..r])
      invariant Exponents(rs.outputrows, false) == []
    {
      ghost var rows := rs.outputrows;
      inputblocks := inputblocks + [recoveryblocks[r].block];
      rs.SetOutput(true, recoveryblocks[r].exponent);
      assert rs.outputrows[..|rows|] == rows;
      r := r + 1;
    }
  }

  /** Tell the matrix which blocks are there, pick the volumes, and solve it if something is missing. */
  method SolvePlan(rs: RS.ReedSolomon, present: seq<bool>, found: seq<DataBlock>, missing: nat,
                   recoveryblocks: seq<RecoveryBlock>)
    returns (ok: bool, inputblocks: seq<DataBlock>)
    requires rs.Valid() && rs.datapresent == rs.datamissing == 0 && rs.outputrows == []
    requires |found| == |Positions(present, true)| && missing == |Positions(present, false)| <= |recoveryblocks|
    modifies rs
    ensures rs.Valid() && rs.flags == present && rs.datamissing == missing && rs.parpresent == missing
    ensures rs.parmissing == 0
    ensures var used := recoveryblocks[..missing];
            && inputblocks == found + Volumes(used)
            && rs.Plan() == Layout(Positions(present, true), Positions(present, false), VolumeExponents(used))
    ensures ok <==> missing == 0 || rs.Plan().Solves(rs.g, RS.ByteBase)
    ensures ok && missing > 0 ==> RS.IsSolved(rs.g, RS.ByteBase, rs.Plan(), rs.leftmatrix[..])
  {
    PositionsPartition(present);
    rs.SetInput(present);
    CountsAreSizes(rs);
    inputblocks := SelectVolumes(rs, recoveryblocks, found, |present|);
    if missing == 0 {
      ok := true;
    } else {
      ok := rs.Compute();
    }
  }

  lemma CountsAreSizes(rs: RS.ReedSolomon)
    requires rs.Valid()
    ensures rs.datapresent == |Positions(rs.flags, true)| && rs.datamissing == |Positions(rs.flags, false)|
  {
    assert |rs.datapresentindex[..rs.datapresent]| == rs.datapresent;
    assert |rs.datamissingindex[..rs.datamissing]| == rs.datamissing;
  }

  /** Which blocks a repair of this set uses. */
  ghost function RepairPlan(flags: seq<bool>, recoveryblocks: seq<RecoveryBlock>): (l: Layout)
    requires |Positions(flags, false)| <= |recoveryblocks|
    ensures Describes(l, flags)
  {
    Layout(Positions(flags, true), Positions(flags, false),
           VolumeExponents(recoveryblocks[..|Positions(flags, false)|]))
  }

  /** Elimination went through, and the matrix is the result. */
  ghost predicate MatrixSolved(rs: RS.ReedSolomon)
    reads rs, rs.leftmatrix
  {
    && rs.datamissing <= |Exponents(rs.outputrows, true)|
    && rs.Plan().Fits() && rs.Plan().Solves(rs.g, RS.ByteBase)
    && RS.IsSolved(rs.g, RS.ByteBase, rs.Plan(), rs.leftmatrix[..])
  }

  /** The blocks are chosen and the matrix is about them. */
  ghost predicate Planned(rs: RS.ReedSolomon, sourcefiles: seq<SourceFile>, recoveryblocks: seq<RecoveryBlock>,
                          inputblocks: seq<DataBlock>, outputblocks: seq<DataBlock>)
    reads rs, rs.datapresentindex, rs.datamissingindex, rs.database, rs.glmt.tables
  {
    && rs.Valid() && |rs.flags| == |sourcefiles| && |outputblocks| == |Positions(rs.flags, false)| <= |recoveryblocks|
    && outputblocks == Gather(TargetBlocks(sourcefiles), Positions(rs.flags, false))
    && inputblocks == Gather(SourceBlocks(sourcefiles), Positions(rs.flags, true))
                      + Volumes(recoveryblocks[..|outputblocks|])
    && rs.datamissing == rs.parpresent == |outputblocks| && rs.parmissing == 0
    && rs.Plan() == RepairPlan(rs.flags, recoveryblocks)
  }

  /** Work out which blocks are read, which are written, and solve the matrix for them. */
  method ComputeRSmatrix(rs: RS.ReedSolomon, sourcefiles: seq<SourceFile>, recoveryblocks: seq<RecoveryBlock>)
    returns (ok: bool, inputblocks: seq<DataBlock>, outputblocks: seq<DataBlock>)
    requires rs.Valid() && rs.datapresent == rs.datamissing == 0 && rs.outputrows == []
    requires |Positions(Found(sourcefiles), false)| <= |recoveryblocks|
    modifies rs
    ensures rs.flags == Found(sourcefiles) && Planned(rs, sourcefiles, recoveryblocks, inputblocks, outputblocks)
    ensures ok <==> |outputblocks| == 0 || rs.Plan().Solves(rs.g, RS.ByteBase)
    ensures ok && |outputblocks| > 0 ==> MatrixSolved(rs)
  {
    var present, found;
    present, found, outputblocks := SelectFiles(sourcefiles);
    ok, inputblocks := SolvePlan(rs, present, found, |outputblocks|, recoveryblocks);
  }

  // The whole repair.

  predicate Missing(f: SourceFile)
  {
    !f.sourceblock.IsSet()
  }

  /** File `k` was found whole, or there is a blank target file of its size. */
  ghost predicate FileReady(f: SourceFile, original: seq<u8>)
    reads f.sourceblock.diskfile, f.targetblock.diskfile
  {
    if f.sourceblock.IsSet() then f.sourceblock.Inside() && f.sourceblock.Bytes() == original
    else Restored(f.targetblock, original, 0)
  }

  ghost function DiskFiles(sourcefiles: seq<SourceFile>, recoveryblocks: seq<RecoveryBlock>): set<DiskFile?<u8>>
  {
    (set b | b in SourceBlocks(sourcefiles) :: b.diskfile)
    + (set b | b in TargetBlocks(sourcefiles) :: b.diskfile)
    + (set b | b in Volumes(recoveryblocks) :: b.diskfile)
  }

  /** Nothing that is read shares a disk file with anything that is written, and no two targets share one. */
  ghost predicate TargetsApart(sourcefiles: seq<SourceFile>, recoveryblocks: seq<RecoveryBlock>)
  {
    && (forall j, k :: 0 <= j < k < |sourcefiles| && Missing(sourcefiles[j]) && Missing(sourcefiles[k]) ==>
          sourcefiles[j].targetblock.diskfile != sourcefiles[k].targetblock.diskfile)
    && (forall j, k :: 0 <= j < |sourcefiles| && 0 <= k < |sourcefiles|
                       && Missing(sourcefiles[j]) && !Missing(sourcefiles[k]) ==>
          sourcefiles[j].targetblock.diskfile != sourcefiles[k].sourceblock.diskfile)
    && (forall j, r :: 0 <= j < |sourcefiles| && 0 <= r < |recoveryblocks| && Missing(sourcefiles[j]) ==>
          sourcefiles[j].targetblock.diskfile != recoveryblocks[r].block.diskfile)
  }

  /** The recovery set: every original fits in a block, and every volume holds its parity. */
  ghost predicate RecoverySet(g: Field<u8>, sourcefiles: seq<SourceFile>, recoveryblocks: seq<RecoveryBlock>,
                              blocksize: nat, files: seq<seq<u8>>)
    reads DiskFiles(sourcefiles, recoveryblocks)
  {
    && |files| == |sourcefiles|
    && (forall k :: 0 <= k < |files| ==> |files[k]| <= blocksize && FileReady(sourcefiles[k], files[k]))
    && (forall r :: 0 <= r < |recoveryblocks| ==>
          && recoveryblocks[r].exponent <= g.limit && recoveryblocks[r].block.Inside()
          && VolumeOf(g, files, blocksize, recoveryblocks[r].exponent, recoveryblocks[r].block.Bytes()))
    && TargetsApart(sourcefiles, recoveryblocks)
  }

  /** The bytes of the volumes that are used. */
  ghost function VolumeBytes(recoveryblocks: seq<RecoveryBlock>, n: nat): (s: seq<seq<u8>>)
    requires n <= |recoveryblocks| && forall r :: 0 <= r < n ==> Volumes(recoveryblocks)[r].Inside()
    reads set b | b in Volumes(recoveryblocks) :: b.diskfile
    ensures |s| == n && forall r :: 0 <= r < n ==> s[r] == recoveryblocks[r].block.Bytes()
  {
    if n == 0 then [] else VolumeBytes(recoveryblocks, n - 1) + [Volumes(recoveryblocks)[n - 1].Bytes()]
  }

  lemma InputsHold(g: Field<u8>, sourcefiles: seq<SourceFile>, recoveryblocks: seq<RecoveryBlock>, blocksize: nat,
                   files: seq<seq<u8>>, flags: seq<bool>, n: nat, inputblocks: seq<DataBlock>)
    requires RecoverySet(g, sourcefiles, recoveryblocks, blocksize, files)
    requires flags == Found(sourcefiles) && n <= |recoveryblocks|
    requires inputblocks == Gather(SourceBlocks(sourcefiles), Positions(flags, true)) + Volumes(recoveryblocks[..n])
    ensures AllHold(inputblocks, Gather(files, Positions(flags, true)) + VolumeBytes(recoveryblocks, n))
  {
    var at := Positions(flags, true);
    forall k | 0 <= k < |at|
      ensures sourcefiles[at[k]].sourceblock.Inside() && sourcefiles[at[k]].sourceblock.Bytes() == files[at[k]]
    {
      assert flags[at[k]] && FileReady(sourcefiles[at[k]], files[at[k]]);
    }
    VolumesHold(g, sourcefiles, recoveryblocks, blocksize, files, n);
    HoldsBoth(Gather(SourceBlocks(sourcefiles), at), Volumes(recoveryblocks[..n]), Gather(files, at),
              VolumeBytes(recoveryblocks, n));
  }

  lemma VolumesHold(g: Field<u8>, sourcefiles: seq<SourceFile>, recoveryblocks: seq<RecoveryBlock>, blocksize: nat,
                    files: seq<seq<u8>>, n: nat)
    requires RecoverySet(g, sourcefiles, recoveryblocks, blocksize, files) && n <= |recoveryblocks|
    ensures AllHold(Volumes(recoveryblocks[..n]), VolumeBytes(recoveryblocks, n))
  {
    forall r | 0 <= r < n
      ensures Volumes(recoveryblocks[..n])[r].Inside()
      ensures Volumes(recoveryblocks[..n])[r].Bytes() == VolumeBytes(recoveryblocks, n)[r]
    {
      assert Volumes(recoveryblocks[..n])[r] == recoveryblocks[r].block;
    }
  }

  lemma HoldsBoth(a: seq<DataBlock>, b: seq<DataBlock>, s: seq<seq<u8>>, t: seq<seq<u8>>)
    requires AllHold(a, s) && AllHold(b, t)
    ensures AllHold(a + b, s + t)
  {}

  lemma {:induction false} PositionsAscend(flags: seq<bool>, wanted: bool)
    ensures forall i, j :: 0 <= i < j < |Positions(flags, wanted)| ==>
              Positions(flags, wanted)[i] < Positions(flags, wanted)[j]
  {
    if flags != [] { PositionsAscend(flags[..|flags| - 1], wanted); }
  }

  lemma OutputsApart(g: Field<u8>, sourcefiles: seq<SourceFile>, recoveryblocks: seq<RecoveryBlock>, blocksize: nat,
                     files: seq<seq<u8>>,
                     flags: seq<bool>, n: nat, inputblocks: seq<DataBlock>, outputblocks: seq<DataBlock>)
    requires RecoverySet(g, sourcefiles, recoveryblocks, blocksize, files)
    requires flags == Found(sourcefiles) && n <= |recoveryblocks|
    requires inputblocks == Gather(SourceBlocks(sourcefiles), Positions(flags, true)) + Volumes(recoveryblocks[..n])
    requires outputblocks == Gather(TargetBlocks(sourcefiles), Positions(flags, false))
    ensures Separate(outputblocks)
    ensures forall o, k :: 0 <= o < |outputblocks| && 0 <= k < |inputblocks| ==>
              outputblocks[o].diskfile != inputblocks[k].diskfile
    ensures Progress(outputblocks, files, Positions(flags, false), 0)
  {
    var at, gone := Positions(flags, true), Positions(flags, false);
    PositionsAscend(flags, false);
    forall o | 0 <= o < |outputblocks| ensures Restored(outputblocks[o], files[gone[o]], 0) {
      assert FileReady(sourcefiles[gone[o]], files[gone[o]]);
    }
    forall i, j | 0 <= i < j < |outputblocks| ensures outputblocks[i].diskfile != outputblocks[j].diskfile {
      assert gone[i] < gone[j] && Missing(sourcefiles[gone[i]]) && Missing(sourcefiles[gone[j]]);
    }
    forall o, k | 0 <= o < |outputblocks| && 0 <= k < |inputblocks|
      ensures outputblocks[o].diskfile != inputblocks[k].diskfile
    {
      assert Missing(sourcefiles[gone[o]]);
      if k < |at| {
        assert !Missing(sourcefiles[at[k]]);
      } else {
        assert inputblocks[k] == recoveryblocks[k - |at|].block;
      }
    }
  }

  /** Once the matrix is solved, everything the chunk loop relies on holds. */
  lemma SolvedIsReady(rs: RS.ReedSolomon, sourcefiles: seq<SourceFile>, recoveryblocks: seq<RecoveryBlock>,
                      blocksize: nat, files: seq<seq<u8>>, inputblocks: seq<DataBlock>, outputblocks: seq<DataBlock>)
    requires Planned(rs, sourcefiles, recoveryblocks, inputblocks, outputblocks) && rs.flags == Found(sourcefiles)
    requires RecoverySet(rs.g, sourcefiles, recoveryblocks, blocksize, files) && MatrixSolved(rs)
    ensures ReadyToRepair(rs, inputblocks, outputblocks, files, blocksize, VolumeBytes(recoveryblocks, |outputblocks|))
    ensures Progress(outputblocks, files, rs.Plan().missing, 0)
  {
    var n := |outputblocks|;
    InputsHold(rs.g, sourcefiles, recoveryblocks, blocksize, files, rs.flags, n, inputblocks);
    OutputsApart(rs.g, sourcefiles, recoveryblocks, blocksize, files, rs.flags, n, inputblocks, outputblocks);
  }

  lemma {:induction false} ListedAt(flags: seq<bool>, wanted: bool, k: nat) returns (o: nat)
    requires k < |flags| && flags[k] == wanted
    ensures o < |Positions(flags, wanted)| && Positions(flags, wanted)[o] == k
  {
    var n := |flags| - 1;
    if k == n {
      o := |Positions(flags[..n], wanted)|;
    } else {
      o := ListedAt(flags[..n], wanted, k);
    }
  }

  /** Every file that was missing has its original bytes. */
  ghost predicate AllWhole(sourcefiles: seq<SourceFile>, files: seq<seq<u8>>)
    requires |files| == |sourcefiles|
    reads set b | b in TargetBlocks(sourcefiles) :: b.diskfile
  {
    forall k :: 0 <= k < |sourcefiles| && Missing(sourcefiles[k]) ==>
      sourcefiles[k].targetblock.IsSet() && sourcefiles[k].targetblock.diskfile.content == files[k]
  }

  lemma TargetsWhole(sourcefiles: seq<SourceFile>, files: seq<seq<u8>>, blocksize: nat, outputblocks: seq<DataBlock>)
    requires |files| == |sourcefiles| && forall k :: 0 <= k < |files| ==> |files[k]| <= blocksize
    requires outputblocks == Gather(TargetBlocks(sourcefiles), Positions(Found(sourcefiles), false))
    requires Progress(outputblocks, files, Positions(Found(sourcefiles), false), blocksize)
    ensures AllWhole(sourcefiles, files)
  {
    forall k | 0 <= k < |sourcefiles| && Missing(sourcefiles[k])
      ensures sourcefiles[k].targetblock.IsSet() && sourcefiles[k].targetblock.diskfile.content == files[k]
    {
      var o := ListedAt(Found(sourcefiles), false, k);
      assert Restored(outputblocks[o], files[k], blocksize);
      assert outputblocks[o].diskfile.content[..|files[k]|] == outputblocks[o].diskfile.content;
      assert files[k][..|files[k]|] == files[k];
    }
  }

  method AllocateBuffers(blocksize: nat, outputs: nat, memorylimit: nat)
    returns (chunksize: nat, alignment: nat, inputbuffer: array<u8>, outputbuffer: array<u8>)
    ensures chunksize == ChunkSize(blocksize, outputs, memorylimit) && chunksize <= alignment == Aligned(chunksize)
    ensures inputbuffer != outputbuffer && fresh(inputbuffer) && fresh(outputbuffer)
    ensures inputbuffer.Length == chunksize && outputbuffer.Length == outputs * alignment
  {
    chunksize := ChunkSize(blocksize, outputs, memorylimit);
    alignment := Aligned(chunksize);
    inputbuffer := new u8[chunksize](i => Zeros(8));
    outputbuffer := new u8[outputs * alignment](i => Zeros(8));
  }

  /** Allocate the buffers and go through the chunks. */
  method RebuildFiles(rs: RS.ReedSolomon, inputblocks: seq<DataBlock>, outputblocks: seq<DataBlock>, blocksize: nat,
                      memorylimit: nat, ghost files: seq<seq<u8>>, ghost volumes: seq<seq<u8>>)
    requires ReadyToRepair(rs, inputblocks, outputblocks, files, blocksize, volumes)
    requires Progress(outputblocks, files, rs.Plan().missing, 0)
    requires blocksize > 0 ==> ChunkSize(blocksize, |outputblocks|, memorylimit) > 0
    modifies set b | b in outputblocks :: b.diskfile
    ensures rs.flags == old(rs.flags)
    ensures Progress(outputblocks, files, Positions(rs.flags, false), blocksize)
  {
    var chunksize, alignment, inputbuffer, outputbuffer := AllocateBuffers(blocksize, |outputblocks|, memorylimit);
    ProcessChunks(rs, inputblocks, outputblocks, blocksize, chunksize, inputbuffer, outputbuffer, alignment, files,
                  volumes);
  }

  method RebuildMissing(rs: RS.ReedSolomon, sourcefiles: seq<SourceFile>, recoveryblocks: seq<RecoveryBlock>,
                        blocksize: nat, memorylimit: nat, inputblocks: seq<DataBlock>, outputblocks: seq<DataBlock>,
                        ghost files: seq<seq<u8>>)
    requires Planned(rs, sourcefiles, recoveryblocks, inputblocks, outputblocks) && rs.flags == Found(sourcefiles)
    requires RecoverySet(rs.g, sourcefiles, recoveryblocks, blocksize, files) && MatrixSolved(rs)
    requires blocksize > 0 ==> ChunkSize(blocksize, |outputblocks|, memorylimit) > 0
    modifies set b | b in outputblocks :: b.diskfile
    ensures AllWhole(sourcefiles, files)
  {
    SolvedIsReady(rs, sourcefiles, recoveryblocks, blocksize, files, inputblocks, outputblocks);
    RebuildFiles(rs, inputblocks, outputblocks, blocksize, memorylimit, files,
                 VolumeBytes(recoveryblocks, |outputblocks|));
    TargetsWhole(sourcefiles, files, blocksize, outputblocks);
  }

  method PrepareRepair(rs: RS.ReedSolomon, sourcefiles: seq<SourceFile>, recoveryblocks: seq<RecoveryBlock>,
                       ghost blocksize: nat, ghost files: seq<seq<u8>>)
    returns (ok: bool, inputblocks: seq<DataBlock>, outputblocks: seq<DataBlock>)
    requires rs.Valid() && rs.datapresent == rs.datamissing == 0 && rs.outputrows == []
    requires RecoverySet(rs.g, sourcefiles, recoveryblocks, blocksize, files)
    requires |Positions(Found(sourcefiles), false)| <= |recoveryblocks|
    modifies rs
    ensures Planned(rs, sourcefiles, recoveryblocks, inputblocks, outputblocks) && rs.flags == Found(sourcefiles)
    ensures RecoverySet(rs.g, sourcefiles, recoveryblocks, blocksize, files)
    ensures ok <==> |outputblocks| == 0 || rs.Plan().Solves(rs.g, RS.ByteBase)
    ensures ok && |outputblocks| > 0 ==> MatrixSolved(rs)
  {
    ok, inputblocks, outputblocks := ComputeRSmatrix(rs, sourcefiles, recoveryblocks);
  }

  /** Repair every missing file. It succeeds exactly when the matrix for the chosen volumes can be solved,
      and then every missing file has its original bytes, whatever the memory limit made of the chunk size. */
  method Repair(rs: RS.ReedSolomon, sourcefiles: seq<SourceFile>, recoveryblocks: seq<RecoveryBlock>, blocksize: nat,
                memorylimit: nat, ghost files: seq<seq<u8>>)
    returns (ok: bool)
    requires rs.Valid() && rs.datapresent == rs.datamissing == 0 && rs.outputrows == []
    requires RecoverySet(rs.g, sourcefiles, recoveryblocks, blocksize, files)
    requires |Positions(Found(sourcefiles), false)| <= |recoveryblocks|
    requires blocksize > 0 ==> ChunkSize(blocksize, |Positions(Found(sourcefiles), false)|, memorylimit) > 0
    modifies rs, set b | b in TargetBlocks(sourcefiles) :: b.diskfile
    ensures var flags := Found(sourcefiles);
            ok <==> Positions(flags, false) == [] || RepairPlan(flags, recoveryblocks).Solves(rs.g, RS.ByteBase)
    ensures ok ==> AllWhole(sourcefiles, files)
    ensures !ok ==> forall b :: b in TargetBlocks(sourcefiles) && b.IsSet() ==> unchanged(b.diskfile)
    ensures forall b :: b in SourceBlocks(sourcefiles) && b.IsSet() ==> unchanged(b.diskfile)
  {
    var inputblocks, outputblocks;
    ok, inputblocks, outputblocks := PrepareRepair(rs, sourcefiles, recoveryblocks, blocksize, files);
    if |outputblocks| == 0 {
      NoneMissing(sourcefiles, files);
    } else if ok {
      RebuildMissing(rs, sourcefiles, recoveryblocks, blocksize, memorylimit, inputblocks, outputblocks, files);
    }
  }

  lemma NoneMissing(sourcefiles: seq<SourceFile>, files: seq<seq<u8>>)
    requires |files| == |sourcefiles| && Positions(Found(sourcefiles), false) == []
    ensures AllWhole(sourcefiles, files)
  {
    forall k | 0 <= k < |sourcefiles| ensures !Missing(sourcefiles[k]) {
      if Missing(sourcefiles[k]) { var o := ListedAt(Found(sourcefiles), false, k); }
    }
  }
}
