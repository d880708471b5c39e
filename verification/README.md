# Verification of the PAR1/PAR2 engine

This project models the erasure-coding engine of the repository, the vendored par2cmdline-turbo with its ParPar
back end, and proves what the engine is for. Six components hang together:

- **Erasure decoding.** Log and antilog tables as a field, the matrix of powers, in-place elimination without pivoting,
  word-at-a-time multiply-accumulate, and the PAR1 repair built on them: the bytes written are the bytes lost.
- **The sliding checksum scanner.** Polynomial arithmetic modulo the CRC-32 polynomial of section 8 of RFC 1952, the
  rotated power table, the double buffer with three pointers, and three hash contexts that share one pass over a file.
- **The parallel pipeline.** One adding thread, one transfer thread and any number of workers as a transition system;
  all interleavings are covered. The partition of a kernel run feeds it.
- **The block index and the scan of data files.** Binary trees with chains of equal keys, two-stage lookup, and the scan.
- **Packets.** The resynchronising packet scanner, the division of recovery blocks among files, and the placement of
  packets in a file.
- **Block size and hashing.** The search for the block size, and the two ways to hash source files.

Bytes and machine words are sequences of bits where bit arithmetic matters; elsewhere the byte type is a parameter.
An MD5 context is the sequence of bytes fed to it, and the digest is an unspecified function. A disk file is a sequence
of bytes. The multiply-add of the pipeline is an unspecified function, so its results hold for any kernel. Code that
works by changing things in place is modelled by classes, arrays and loops; each method is tied to a specification about
which the laws are proved. Integers are unbounded unless stated; the 8-bit base counter of the Reed-Solomon matrix wraps.

Check everything with `dafny verify dfyconfig.toml`.

## Model

| member | source | states |
|---|---|---|
| `GaloisTables.GaloisTable.constructor` | installer_source/c++/par2cmdline-turbo/src/galois.h:133-152 | Doubling one over and over fills both tables: entry `l` of the antilogarithms is the `l`-th orbit value, the last one is zero, and every visited value has a logarithm that leads back to it. |
| `GaloisField.TablesFormField` | installer_source/c++/par2cmdline-turbo/src/galois.h:164-218 | For every width and every generator whose orbit visits all non-zero values, table-driven `*` and `/` with exclusive or satisfy the laws of a field, division included, and `pow(e)` is the `e`-fold product for every `e` up to the limit. |
| `GaloisField.TimesTwoIsDouble` | installer_source/c++/par2cmdline-turbo/src/galois.h:164-218 | The table product with twice one is the value shifted up and reduced by the generator. |
| `Galois.VisitsAllIffOrder` | installer_source/c++/par2cmdline-turbo/src/galois.h:133-152 | The doubling orbit visits every non-zero value exactly when it does not return to one before the limit. |
| `Galois8.GeneratorVisitsAll` | installer_source/c++/par2cmdline-turbo/src/galois.h:335-335 | The 8-bit generator 0x11D visits all 255 non-zero bytes. |
| `SingularVolumes.BytesServe` | installer_source/c++/par2cmdline-turbo/src/galois.h:133-259 | The constructed 8-bit tables are a field with exclusive or as addition, with powers up to 255. |
| `MultiplyBuffers.LongMultiplyTable.constructor` | installer_source/c++/par2cmdline-turbo/src/galois.h:314-337 | The long multiplication table holds the product of every pair of bytes. |
| `MultiplyBuffers.InternalProcess` | installer_source/c++/par2cmdline-turbo/src/reedsolomon.cpp:105-176 | Four bytes at a time and then byte by byte, every output byte becomes itself plus the factor times the input byte; nothing else changes. |
| `ReedSolomon.ReedSolomon.SetInput` | installer_source/c++/par2cmdline-turbo/src/reedsolomon.cpp:55-82 | The present and the missing inputs are listed in order, and the base of input `i` has the number `(i + 1) % 256`. |
| `ReedSolomon.ByteBase` | installer_source/c++/par2cmdline-turbo/src/reedsolomon.cpp:63-78 | The base of input `i` is the 8-bit word of the number `(i + 1) % 256`. |
| `ReedSolomon.ReedSolomon.SetOutput` | installer_source/c++/par2cmdline-turbo/src/reedsolomon.h:188-208 | A recovery block joins the rows; the counters follow. |
| `ReedSolomon.ReedSolomon.SetOutputRange` | installer_source/c++/par2cmdline-turbo/src/reedsolomon.h:211-221 | All exponents of a range join in order, both ends included; an empty range adds nothing. |
| `ReedSolomon.ReedSolomon.Compute` | installer_source/c++/par2cmdline-turbo/src/reedsolomon.h:224-385 | Succeeds exactly when there are enough recovery blocks, something to compute, and no pivot is zero; then every row of the left matrix is the solved row. |
| `ReedSolomonMatrix.SolvedReconstructs` | installer_source/c++/par2cmdline-turbo/src/reedsolomon.h:224-552 | When elimination goes through, each solved row times (present data, used recovery blocks) is the missing data block of that row, and each later row gives the missing recovery block, for every data vector. |
| `ReedSolomonMatrix.SolvesIff` | installer_source/c++/par2cmdline-turbo/src/reedsolomon.h:427-440 | Elimination without pivoting goes through exactly when every leading square block of the right matrix has only the trivial kernel. |
| `GaussElimination.GaussElim` | installer_source/c++/par2cmdline-turbo/src/reedsolomon.h:389-552 | In place, row by row: succeeds exactly when the matrix is solvable without pivoting, and then left and right matrix side by side are the eliminated matrix. |
| `Elimination.RunSolves` | installer_source/c++/par2cmdline-turbo/src/reedsolomon.h:389-552 | Row operations keep every solution, and the right side ends as the identity, so each left row times the known side is the unknown of that row. |
| `Elimination.SolvableIff` | installer_source/c++/par2cmdline-turbo/src/reedsolomon.h:427-440 | The first `k` pivots are non-zero exactly when the first `n` columns restricted to the first `n` rows are independent, for every `n` up to `k`. |
| `ReedSolomon.ReedSolomon.Process` | installer_source/c++/par2cmdline-turbo/src/reedsolomon.h:164-185 | One input block, times its factor, is added to one output row. |
| `DataBlocks.DataBlock.ReadData` | installer_source/c++/par2cmdline-turbo/src/datablock.cpp:45-82 | Bytes past the end of the block or of the file read as zero; the read fails exactly when it would start past the end of the file. |
| `DataBlocks.DataBlock.WriteData` | installer_source/c++/par2cmdline-turbo/src/datablock.cpp:85-110 | Only bytes inside the block are written, and it says how many; the rest of the file stays. |
| `Par1Repairer.ChunkSize` | installer_source/c++/par2cmdline-turbo/src/par1repairer.cpp:1264-1291 | All of the block if every output fits in memory; otherwise the largest multiple of four that does. |
| `Par1Repairer.ChunksAdvance` | installer_source/c++/par2cmdline-turbo/src/par1repairer.cpp:1264-1291 | The chunk size is positive exactly when everything fits in memory at once or four bytes of every output do. |
| `Par1Repairer.NoChunk` | installer_source/c++/par2cmdline-turbo/src/par1repairer.cpp:1264-1291 | Two outputs of a hundred bytes each with a limit of seven bytes give a chunk size of zero. |
| `Par1Repairer.ComputeRSmatrix` | installer_source/c++/par2cmdline-turbo/src/par1repairer.cpp:1165-1262 | Found files are read, missing ones written, the volumes with the lowest exponents fill the gaps, and success means exactly that the matrix for this choice can be solved. |
| `Par1Repairer.RecoverChunk` | installer_source/c++/par2cmdline-turbo/src/par1repairer.cpp:1294-1345 | After all inputs have been added, row `o` of the output buffer is the chunk of missing file `o`. |
| `Par1Repairer.ProcessData` | installer_source/c++/par2cmdline-turbo/src/par1repairer.cpp:1294-1364 | Every missing file is restored one chunk further. |
| `Par1Repairer.Repair` | installer_source/c++/par2cmdline-turbo/src/par1repairer.cpp:102-258 | Given volumes that hold, byte by byte, the sums of the files times powers of their numbers, the repair succeeds exactly when the chosen volumes can be solved; then every missing file has its original bytes, for every memory limit. If it fails no target is touched, and files that were found never are. |
| `SingularVolumes.PairSolves` | installer_source/c++/par2cmdline-turbo/src/reedsolomon.h:434-440 | With two blocks missing, elimination goes through exactly when the first pivot is not zero and the two-by-two determinant is not zero. |
| `SingularVolumes.EnoughVolumesMayNotDo` | installer_source/c++/par2cmdline-turbo/src/reedsolomon.h:434-440 | Files 0 and 213 cannot be rebuilt from the volumes with exponents 3 and 6, although there are two volumes for two files. |
| `CrcField.GF32Multiply` | installer_source/c++/par2cmdline-turbo/src/crc.cpp:39-52 | The loop computes the product of two polynomials modulo the reflected polynomial. |
| `CrcTables.CrcTable.constructor` | installer_source/c++/par2cmdline-turbo/src/crc.cpp:75-98 | The lookup table holds eight steps of every byte; the power table holds the repeated squares of the unknown, rotated by three. |
| `CrcPeriod.Period` | installer_source/c++/par2cmdline-turbo/src/crc.cpp:55-68 | The powers of the unknown modulo the CRC-32 polynomial return to one after 2^32 - 1 steps, which justifies reducing exponents. |
| `CrcTables.RotatedPower` | installer_source/c++/par2cmdline-turbo/src/crc.cpp:90-97 | Entry `k` of the rotated table is the power for 2^k bytes, also where the rotation wraps around. |
| `CrcTables.CRCExp8` | installer_source/c++/par2cmdline-turbo/src/crc.cpp:55-68 | For every byte count, reduced or not, the result is the power of the unknown for that many bytes. |
| `Crc.CRCUpdateBlock` | installer_source/c++/par2cmdline-turbo/src/crc.h:55-65 | The table-driven loop is the bit-by-bit register fed with the buffer. |
| `CrcTables.CRCUpdateZeros` | installer_source/c++/par2cmdline-turbo/src/crc.cpp:119-122 | For every length, one multiplication is that many byte-wise updates with zero. |
| `CrcWindow.GenerateWindowTable` | installer_source/c++/par2cmdline-turbo/src/crc.cpp:101-117 | Every entry removes exactly what its byte has left in the register, and restarts the register one byte later. |
| `CrcWindow.SlideIsRecompute` | installer_source/c++/par2cmdline-turbo/src/crc.h:76-80 | For every window length and every buffer, sliding the checksum of one window by a byte is the checksum of the next window computed from scratch. |
| `FileCheckSummer.FileCheckSummer.Fill` | installer_source/c++/par2cmdline-turbo/src/filechecksummer.cpp:208-243 | The buffer still holds a stretch of the file, the contexts have been fed exactly what has been read, it reads as much as fits, and it blanks the rest up to its target. |
| `FileCheckSummer.FedMore` | installer_source/c++/par2cmdline-turbo/src/filechecksummer.cpp:246-278 | However the file is cut into updates, the 16k context takes its first 16k once and in order, and the full context takes over exactly at 16k. |
| `FileCheckSummer.FileCheckSummer.StopHasher` | installer_source/c++/par2cmdline-turbo/src/filechecksummer.cpp:63-77 | The hand-over from the multi-hash to the single context loses and repeats nothing of what has been read. |
| `FileCheckSummer.FileCheckSummer.ComputeCurrentChecksum` | installer_source/c++/par2cmdline-turbo/src/filechecksummer.cpp:178-205 | Checksum and hash are those of the block in the buffer; with the multi-hash the block is cut at the end of the file and padded with zeros. |
| `FileCheckSummer.FileCheckSummer.Start` | installer_source/c++/par2cmdline-turbo/src/filechecksummer.cpp:80-97 | Establishes the invariant at the start of the file, the empty file included. |
| `FileCheckSummer.FileCheckSummer.Step` | installer_source/c++/par2cmdline-turbo/src/filechecksummer.h:150-199 | Keeps the invariant and moves one byte on: anywhere in the file, checksum and hash are those of the window in the buffer, and the contexts have been fed what has been read. |
| `FileCheckSummer.FileCheckSummer.Jump` | installer_source/c++/par2cmdline-turbo/src/filechecksummer.cpp:100-175 | Keeps the invariant over any distance, one block at most. |
| `FileCheckSummer.FileCheckSummer.Checksum` | installer_source/c++/par2cmdline-turbo/src/filechecksummer.h:125-129 | The stored value is the checksum of the window, which begins with all there is of the file at the offset; in the file, and while the multi-hash is in use up to its end, it is the checksum of the block there, padded with zeros. |
| `FileCheckSummer.FileCheckSummer.Hash` | installer_source/c++/par2cmdline-turbo/src/filechecksummer.cpp:305-317 | The result, cached or not, is the hash of the same bytes as the checksum, with the same promises about them. |
| `FileCheckSummer.FileCheckSummer.ViewBegins` | installer_source/c++/par2cmdline-turbo/src/filechecksummer.cpp:208-243 | The window begins with what there is of the file at the offset; while the multi-hash is in use, or if it lies in the file, it is the block there, padded with zeros. |
| `FileCheckSummer.FileCheckSummer.ShortHash` | installer_source/c++/par2cmdline-turbo/src/filechecksummer.cpp:332-347 | The hash of the first bytes of the window, padded with zeros to a block. |
| `FileCheckSummer.FileCheckSummer.GetFileHashes` | installer_source/c++/par2cmdline-turbo/src/filechecksummer.cpp:281-302 | At the end of the file, by whatever steps and jumps it was reached, the reported hashes are those of the whole file and of its first min(16384, size) bytes. |
| `Crc32Scanner.ShortChecksum` | installer_source/c++/par2cmdline-turbo/src/filechecksummer.cpp:320-329 | For every length up to what is left, the result is the CRC-32 of that many window bytes padded with zeros to a block. |
| `Crc32Scanner.Crc32Slides` | installer_source/c++/par2cmdline-turbo/src/crc.h:76-80 | CRC-32 with its window table satisfies the law of sliding that the scanner relies on. |
| `PipelineRuns.StepKeeps` | installer_source/c++/par2cmdline-turbo/parpar/gf16/controller_cpu.cpp:237-256 | Every step of the adding thread, the transfer thread and any worker keeps the invariant. |
| `PipelineRuns.RunKeeps` | installer_source/c++/par2cmdline-turbo/parpar/gf16/controller_cpu.cpp:291-331 | After any run, under any interleaving, the invariant holds and what has been added is what the steps added, in order. |
| `PipelineResults.EveryCellIsTheSum` | installer_source/c++/par2cmdline-turbo/parpar/gf16/controller.cpp:306-335 | Once `endInput` has completed, under every interleaving, every output cell is the sum of what all inputs contribute, and results have been started exactly if anything was added. |
| `KernelSums.OutputsAreDots` | installer_source/c++/par2cmdline-turbo/parpar/gf16/controller_cpu.cpp:489-512 | With a multiply-add over a field and the partition of a kernel run, after a complete run every word of every chunk of every output is the dot product of the factors for that output and the words of all inputs that were added. |
| `PipelineResults.BatchesDoNotMatter` | installer_source/c++/par2cmdline-turbo/parpar/gf16/controller_cpu.cpp:291-331 | Adding batch after batch is adding all inputs one after the other. |
| `PipelineResults.NoWriteWhileHeldInRuns` | installer_source/c++/par2cmdline-turbo/parpar/gf16/controller.h:60-67 | In no run does a step write slices or coefficients of a staging area that the kernel or a worker still uses. |
| `PipelineResults.NoTwoWriters` | installer_source/c++/par2cmdline-turbo/parpar/gf16/controller_cpu.cpp:463-536 | Two workers that compute at the same time write different cells. |
| `PipelineActive.RunCounts` | installer_source/c++/par2cmdline-turbo/parpar/gf16/controller_cpu.cpp:526-532 | In every state of every run the count of active areas is the number of batches that have been submitted and are not through. |
| `PipelineActive.BatchClosedWhen` | installer_source/c++/par2cmdline-turbo/parpar/gf16/controller_cpu.cpp:312-331 | An input closes its batch exactly when that is asked for, when the batch is full, or when no batch is in work, there is another area and the batch is large enough. |
| `PipelineProgress.NeverStuck` | installer_source/c++/par2cmdline-turbo/parpar/gf16/controller_cpu.cpp:463-536 | In every reachable state with an active staging area the transfer thread or a worker can take a step. |
| `PipelineTermination.StepUses` | installer_source/c++/par2cmdline-turbo/parpar/gf16/controller_cpu.cpp:237-256 | Every step that does not add, flush or end lowers a measure of the work that remains. |
| `PipelineTermination.WorkIsBounded` | installer_source/c++/par2cmdline-turbo/parpar/gf16/controller_cpu.cpp:463-536 | Between two additions no interleaving has more steps than the measure at its start. |
| `PipelineTermination.EndInputCompletes` | installer_source/c++/par2cmdline-turbo/parpar/gf16/controller.cpp:312-335 | After `endInput` only so many steps can follow, and when none can, every staging area is free. |
| `KernelPartition.CalcChunkSize` | installer_source/c++/par2cmdline-turbo/parpar/gf16/controller_cpu.cpp:127-145 | The chunk length is the least multiple of the stride with which no more chunks are needed than are aimed at, and the number of chunks is the one it needs. |
| `KernelPartition.WantedIsNear` | installer_source/c++/par2cmdline-turbo/parpar/gf16/controller_cpu.cpp:127-140 | The number of chunks aimed at: the slice divided by the intended length, rounded, when an even share for every thread is at most half of it; otherwise for every thread the share divided by it, rounded; at least one each. |
| `KernelPartition.SplitIsNearest` | installer_source/c++/par2cmdline-turbo/parpar/gf16/controller_cpu.cpp:573-597 | The first output of every share of a left-over chunk is the integer nearest to an even division. |
| `KernelPartition.RunKernel` | installer_source/c++/par2cmdline-turbo/parpar/gf16/controller_cpu.cpp:539-624 | The requests that are sent are those of the partition, and the stored reference count is their number. |
| `KernelPartition.CellsTile` | installer_source/c++/par2cmdline-turbo/parpar/gf16/controller_cpu.cpp:463-536 | The cells of all chunks and outputs follow each other in the processing memory without gap or overlap and fill it. |
| `KernelCoverage.CoveredOnce` | installer_source/c++/par2cmdline-turbo/parpar/gf16/controller_cpu.cpp:563-623 | For every slice size, thread count and output count, each pair of a chunk and an output is covered by exactly one request, and nothing else is. |
| `KernelCoverage.RequestsWriteCells` | installer_source/c++/par2cmdline-turbo/parpar/gf16/controller_cpu.cpp:488-534 | Every request is for a real thread, is not empty, and writes the cells of its chunks and outputs and nothing else. |
| `KernelCoverage.KernelPlanValid` | installer_source/c++/par2cmdline-turbo/parpar/gf16/controller_cpu.cpp:539-624 | The requests are a valid division of the output for the pipeline: cells in range, none in two parts. |
| `KernelCoverage.EveryCellHasPart` | installer_source/c++/par2cmdline-turbo/parpar/gf16/controller_cpu.cpp:539-624 | Every cell belongs to some part, so the sums above cover the whole output. |
| `PacketScanner.GreedyIsLeast` | installer_source/c++/par2cmdline-turbo/src/par2repairer.cpp:411-571 | The naive scan takes, in turn, the least position at or after the end of the packet before that holds a whole, undamaged packet, and there is none after the last. |
| `PacketScanner.NextMagic` | installer_source/c++/par2cmdline-turbo/src/par2repairer.cpp:411-476 | The buffered search skips no magic, at buffer boundaries either. |
| `PacketScanner.CheckPacket` | installer_source/c++/par2cmdline-turbo/src/par2repairer.cpp:474-545 | A packet is accepted exactly when its length is at least 64, a multiple of four and inside the file, and the hash of everything from its byte 32 on is the one in its bytes 16 to 31; the scan goes on behind it, or one byte on. |
| `PacketScanner.LoadPackets` | installer_source/c++/par2cmdline-turbo/src/par2repairer.cpp:411-571 | For every file and packet size the buffered scan finds exactly the packets of the naive one; the set is the one already known or that of the first packet, and exactly the packets of that set are passed on, in order. |
| `VerificationHashTable.VerificationHashTable.constructor` | installer_source/c++/par2cmdline-turbo/src/verificationhashtable.cpp:51-65 | The number of buckets is the least power of two from 256 to 65536 that is not below the limit, or 65536. |
| `VerificationHashTable.VerificationHashTable.Insert` | installer_source/c++/par2cmdline-turbo/src/verificationhashtable.h:155-179 | The entry is hung where the walk ends, and every lookup stays complete and in order of insertion. |
| `VerificationHashTable.VerificationHashTable.Load` | installer_source/c++/par2cmdline-turbo/src/verificationhashtable.cpp:68-106 | There is an entry for every block of the file, each linked to the next. |
| `VerificationHashTable.VerificationHashTable.Lookup` | installer_source/c++/par2cmdline-turbo/src/verificationhashtable.h:182-225 | Search by checksum and then by hash from the node found: the `same` chain of the result lists exactly the entries with that key, oldest first; there is no result exactly when there are none. |
| `HashForest.TwoStages` | installer_source/c++/par2cmdline-turbo/src/verificationhashtable.h:182-225 | Going on from the node with the right checksum finds what a search for both from the root would have found. |
| `HashForest.InsertKeepsComplete` | installer_source/c++/par2cmdline-turbo/src/verificationhashtable.h:155-179 | Inserting keeps lookup complete for every key. |
| `BlockMatches.FindMatch` | installer_source/c++/par2cmdline-turbo/src/verificationhashtable.h:289-470 | The pointer walks return exactly what is specified by the index. What that is, is said by the next rows. |
| `BlockMatches.ExpectedIsTaken` | installer_source/c++/par2cmdline-turbo/src/verificationhashtable.h:306-345 | A suggested last block whose padded checksum and hash agree, or another suggested block that agrees and has not been found, is taken whatever else there is. |
| `BlockMatches.OnlyIsTakenIff` | installer_source/c++/par2cmdline-turbo/src/verificationhashtable.h:362-416 | The only entry with the key is taken exactly when its file is not complete, it is as long as what is left, and it has not been found, or is the first block of its file at the start of the data file, or was suggested and has been found in another data file; otherwise, unless only its length is wrong, it is a duplicate. |
| `BlockMatches.OthersAreMissing` | installer_source/c++/par2cmdline-turbo/src/verificationhashtable.h:420-470 | Without an expected block, and with several entries for the key or none, nothing is a duplicate, and what is taken has the key, has not been found and is as long as what is left. |
| `BlockMatches.MatchPrefers` | installer_source/c++/par2cmdline-turbo/src/verificationhashtable.h:420-470 | Among several entries with the key, the oldest usable one of the preferred file is taken, or else the oldest usable one. |
| `BlockMatches.MatchIsTrue` | installer_source/c++/par2cmdline-turbo/src/verificationhashtable.h:306-355 | A match agrees with the window in checksum and hash exactly when the hash it was looked up by is not left over from a failed comparison with a padded last block. |
| `BlockMatches.NoMatchIsTrue` | installer_source/c++/par2cmdline-turbo/src/verificationhashtable.h:358-470 | Without a match the suggestion does not fit, and an entry that agrees with the window may not be used, unless the hash is stale. |
| `StaleMatches.StaleHashMisleads` | installer_source/c++/par2cmdline-turbo/src/verificationhashtable.h:306-355 | If some bytes do not show in the checksum, then with blocks of twice their number there are two source files and a data file that lies wholly in two hits of one scan, the second one a block whose bytes are not there. |
| `CrcCollisions.PolynomialUnseen` | installer_source/c++/par2cmdline-turbo/src/crc.h:55-65 | The bytes 41 06 71 DB 01 do to any register of CRC-32 what five zeros do. |
| `CrcDifferences.ChecksumTells` | installer_source/c++/par2cmdline-turbo/src/crc.h:55-65 | Buffers that differ only within four bytes in a row have different checksums. |
| `CrcCheck.CheckValue` | installer_source/c++/par2cmdline-turbo/src/crc.h:55-65 | The checksum of the digits one to nine is 0xCBF43926, the check value of CRC-32. |
| `CrcCollisions.CollisionMisleads` | installer_source/c++/par2cmdline-turbo/src/verificationhashtable.h:306-355 | With CRC-32, any hash that tells three blocks apart, and every block size from twelve on that is a multiple of four, that scan is misled. |
| `SmallBlocks.MisleadsIff` | installer_source/c++/par2cmdline-turbo/src/verificationhashtable.h:306-355 | With CRC-32 and entries of real blocks, some scan takes one block for another exactly when the block size, a multiple of four, is at least twelve; the hash need only tell three blocks apart, or, below twelve, all of them. |
| `BlockHits.LoadKeepsLengths` | installer_source/c++/par2cmdline-turbo/src/verificationhashtable.cpp:68-106 | Loading a file keeps what the scan relies on: blocks are not empty, and all but the last of a file are full. |
| `ScanDataFile.Look` | installer_source/c++/par2cmdline-turbo/src/par2repairer.cpp:1698-1704 | What the scanner sees anywhere in the file: the sums of one window, which begins with all there is of the file at the offset, and the sums of its first bytes, padded; in the file, or while the multi-hash is in use, the window is the block there. |
| `ScanDataFile.LookUp` | installer_source/c++/par2cmdline-turbo/src/par2repairer.cpp:1698-1704 | What is found, or that nothing is, is what the index specifies after these hits for the window that the scanner shows. |
| `BlockHits.Search.FoundIsTrue` | installer_source/c++/par2cmdline-turbo/src/verificationhashtable.h:289-470 | Anywhere in the file, the bytes of what is found are verified by the window exactly when the hash was not stale; what was not expected lies in the file. |
| `BlockHits.Search.FoundMayBeTaken` | installer_source/c++/par2cmdline-turbo/src/verificationhashtable.h:306-470 | What is taken has not been found, except for the first block of a file at the start of the data file, and for the expected block when it is the last one of its file or has been found in another data file. |
| `BlockHits.Search.TakenTwice` | installer_source/c++/par2cmdline-turbo/src/par2repairer.cpp:1706-1783 | When hits are recorded, the only block that a scan takes twice is an expected last one of its file. |
| `BlockHits.Setting.ExpectedIsTrue` | installer_source/c++/par2cmdline-turbo/src/verificationhashtable.h:306-331 | An expected last block that lies in the file is what the file has there, checksum and hash, as soon as its padded checksum agrees. |
| `BlockHits.Search.MissIsTrue` | installer_source/c++/par2cmdline-turbo/src/verificationhashtable.h:289-470 | Where nothing is found, the window does not begin with the expected last block, and unless the hash is stale every entry with its checksum and hash has been found before, belongs to a complete file or has the wrong length. |
| `ScanDataFile.Miss` | installer_source/c++/par2cmdline-turbo/src/par2repairer.cpp:1786-1836 | Without a match the offset strictly advances, by one byte; or, after enough bytes in vain and if data may be skipped, by at most one skip more. |
| `ScanDataFile.TakeHit` | installer_source/c++/par2cmdline-turbo/src/par2repairer.cpp:1706-1783 | A hit is counted and recorded, the offset strictly advances behind it, and what is known of the scan is kept. |
| `BlockHits.Search.MissPassesNothing` | installer_source/c++/par2cmdline-turbo/src/par2repairer.cpp:1807-1836 | A step after a miss passes over nothing, or over less than one skip. |
| `ScanDataFile.ScanAll` | installer_source/c++/par2cmdline-turbo/src/par2repairer.cpp:1670-1836 | The loop terminates; the hits do not overlap, their number is the count, each is what the index specified, and the match is full exactly while they are the first blocks of one file in order with nothing behind them; every other offset was looked at in vain or comes less than one skip behind one that was; renaming gives up only on files that are not intact. |
| `BlockHits.InOrderVerified` | installer_source/c++/par2cmdline-turbo/src/par2repairer.cpp:1706-1783 | When blocks are found in order, every one, the last one included, is verified by the block that the file has there, padded with zeros. |
| `ScanDataFile.Conclude` | installer_source/c++/par2cmdline-turbo/src/par2repairer.cpp:1857-2015 | No hit means no match and only that; a full match means exactly that the hits are all blocks of one file in order, up to the end of a file with its size and hashes. |
| `ScanDataFile.ScanDataFile` | installer_source/c++/par2cmdline-turbo/src/par2repairer.cpp:1581-2050 | For every file, whatever the memory held: the recorded places are those of the hits; the hits do not overlap, are what the index specified, true of the window, and of blocks that may be taken; every other offset was looked at in vain or comes less than one skip behind one that was, without skipping no skip at all; a non-empty file is a full match exactly when the match is perfect; and a data file that is a source file, none of whose blocks has been found, is a full match of it. |
| `IntactFiles.NextIsFound` | installer_source/c++/par2cmdline-turbo/src/par2repairer.cpp:1698-1783 | In an intact file the next thing found is always the next block, at its place. |
| `IntactFiles.LoadedIsIntact` | installer_source/c++/par2cmdline-turbo/src/verificationhashtable.cpp:68-106 | When a source file has been loaded, before and after others, a data file with its bytes is intact for the scan, if its first block has a key of its own or the file is the one that is looked for. |
| `PacketPlacement.PlacePackets` | installer_source/c++/par2cmdline-turbo/src/par2creator.cpp:660-735 | The packets tile the file from 0 to its size, the recovery packets are in order, the critical ones take turns, each as often as intended, exactly where one is due in proportion, and the creator packet comes last. |
| `PacketPlacement.EachByteOnce` | installer_source/c++/par2cmdline-turbo/src/par2creator.cpp:660-735 | Every byte of the created file is in exactly one packet, and no packet reaches beyond it. |
| `PacketPlacement.EachCopied` | installer_source/c++/par2cmdline-turbo/src/par2creator.cpp:686-725 | Every critical packet lies in a file once, without recovery packets, and otherwise as often as their number has bits. |
| `PacketPlacement.EachRecoveryPlaced` | installer_source/c++/par2cmdline-turbo/src/par2creator.cpp:700-708 | Every exponent of a file has exactly one recovery packet in it. |
| `PacketPlacement.RecoveryInOrder` | installer_source/c++/par2cmdline-turbo/src/par2creator.cpp:700-708 | A recovery packet has the exponent that its place among the recovery packets gives it. |
| `PacketPlacement.ProportionalShare` | installer_source/c++/par2cmdline-turbo/src/par2creator.cpp:686-725 | Whenever a recovery packet or the creator packet follows, the number of critical packets so far is the share of the recovery packets so far of all copies, rounded down. |
| `PacketPlacement.FairAtEveryPrefix` | installer_source/c++/par2cmdline-turbo/src/par2creator.cpp:686-725 | Wherever the file is cut, the numbers of copies of any two critical packets differ by at most one. |
| `RecoveryFiles.ComputeRecoveryFileCount` | installer_source/c++/par2cmdline-turbo/src/libpar2.cpp:117-189 | Which requests succeed, and with how many files: as many as requested, or as many as the number of blocks has bits; for the limited scheme the files that hold the largest and the low ones that double. |
| `RecoveryFiles.EachExponentOnce` | installer_source/c++/par2cmdline-turbo/src/par2creator.cpp:488-585 | Every exponent of the range is in exactly one file, and no other exponent is in any. |
| `RecoveryFiles.AllocateUniform` | installer_source/c++/par2cmdline-turbo/src/par2creator.cpp:500-514 | The files split the range without gap or overlap; all hold the same, but for one more in the first ones, as many as there are blocks left over. |
| `RecoveryFiles.AllocateVariable` | installer_source/c++/par2cmdline-turbo/src/par2creator.cpp:516-544 | The files split the range, and for the least power of two with which all blocks fit, file `i` holds that times `2^i`, or what is left; none is empty exactly when there are at most as many files as the number of blocks has bits. |
| `RecoveryFiles.TenBlocksInFiveFiles` | installer_source/c++/par2cmdline-turbo/src/par2creator.cpp:516-544 | Ten blocks in five files leave the last one empty. |
| `RecoveryFiles.AllocateLimited` | installer_source/c++/par2cmdline-turbo/src/par2creator.cpp:546-582 | The assertion in the middle holds, the files split the range, none is empty, the top ones hold as many blocks as the largest source file has, and the low ones double from one on and hold less than twice that in all. |
| `RecoveryFiles.AllocateBlocks` | installer_source/c++/par2cmdline-turbo/src/par2creator.cpp:488-589 | For each scheme and the file count computed for it, the allocations split [first, first + count) in the way of the scheme, and one more file holds nothing. |
| `BlockSize.ComputeBlockSize` | installer_source/c++/par2cmdline-turbo/src/commandline.cpp:1185-1282 | Terminates; without a given size the result is the least multiple of four for which the files make no more blocks than requested; fewer blocks than files are refused, and otherwise only a least size that still makes more than 32768 blocks. |
| `BlockSize.Search` | installer_source/c++/par2cmdline-turbo/src/commandline.cpp:1227-1277 | The bisection ends at the least size, in units of four bytes, that does not make too many blocks. |
| `BlockSize.BlocksMono` | installer_source/c++/par2cmdline-turbo/src/commandline.cpp:1240-1244 | Larger blocks never make more of them. |
| `BlockSize.BlocksCounted` | installer_source/c++/par2cmdline-turbo/src/commandline.cpp:1240-1244 | The files make one block for every multiple of the block size that lies inside one of them. |
| `SourceHashes.Par2CreatorSourceFile.HashNow` | installer_source/c++/par2cmdline-turbo/src/par2creatorsourcefile.cpp:118-243 | Reading through a buffer of any size: the sum of every padded block, the hash of the first 16k and the hash of the file are in the packets; there is room for the block that is left to finish exactly when the file is not empty. |
| `SourceHashes.EmptyFileHasNoRoom` | installer_source/c++/par2cmdline-turbo/src/verificationpacket.cpp:60-70 | For an empty file the packet has no entry, whatever the block size, so the sum of block 0 does not fit. |
| `SourceHashes.Par2CreatorSourceFile.HashLater` | installer_source/c++/par2cmdline-turbo/src/par2creatorsourcefile.cpp:88-117 | The hash of the first 16k, or of all there is, is known before any block is hashed. |
| `SourceHashes.Par2CreatorSourceFile.UpdateHashes` | installer_source/c++/par2cmdline-turbo/src/par2creatorsourcefile.cpp:286-306 | Given the next block padded with zeros, its sum is stored, and the file hash takes in exactly the bytes of the file. |
| `SourceHashes.Par2CreatorSourceFile.FinishHashes` | installer_source/c++/par2cmdline-turbo/src/par2creatorsourcefile.cpp:308-318 | After the last block the packets say the same as after hashing at once. |
| `SourceHashes.DescribedSays` | installer_source/c++/par2cmdline-turbo/src/par2creatorsourcefile.cpp:118-318 | What the packets of a hashed file say: for every multiple of the block size inside the file the checksum and the hash of the block there, padded with zeros; the hash of the file and of its first 16384 bytes. |
| `SourceHashes.ProcessData` | installer_source/c++/par2cmdline-turbo/src/par2creator.cpp:752-842 | Counting through the files while going through all blocks, every file ends with the packets that hashing at once would give, if only the last files are empty. |
| `SourceHashes.CountsMatchIff` | installer_source/c++/par2cmdline-turbo/src/par2creator.cpp:754-842 | Counting file by file names the right file and block for every source block exactly when no empty file comes before one that is not empty. |
| `SourceHashes.EmptyFileOutOfStep` | installer_source/c++/par2cmdline-turbo/src/par2creator.cpp:838-842 | With an empty file first, the first block is hashed for the empty file. |

## Findings

Properties that the code or its comments promise and that do not hold, each with an input and its exact condition.

- **Enough recovery volumes do not always repair.** The comment at
  installer_source/c++/par2cmdline-turbo/src/reedsolomon.h:430-431 says that looking for a non-zero pivot is not
  necessary because of how the matrix is made.
  `SingularVolumes.EnoughVolumesMayNotDo` gives files 0 and 213 with exponents 3 and 6, which are volumes 4 and 7. Repair
  works exactly when `ReedSolomonMatrix.SolvesIff` says, and for two missing files exactly under the determinant condition
  of `SingularVolumes.PairSolves`. `Par1Repairer.Repair` is stated on this condition.
- **A scan can count a block as found whose bytes are not there.** When the suggested last block of a file agrees with the
  padded window in its checksum but not in its hash, `FindMatch` keeps the hash of the padded window and uses it for the
  general lookup together with the checksum of the unpadded window. `CrcCollisions.CollisionMisleads` gives an input for
  every block size from twelve on. With blocks of twelve bytes, and G the bytes 41 06 71 DB 01 00: the first source file is
  G, six zeros, G; the second one is twelve zeros; the data file is G, twelve zeros, G. Its second half is taken for the
  second source file. Block sizes are multiples of four
  (installer_source/c++/par2cmdline-turbo/src/mainpacket.cpp:124), and `SmallBlocks.MisleadsIff` says that, as long
  as no two blocks of four or eight bytes have the same hash, this can happen exactly when the block size is at least
  twelve. For a single match, `BlockMatches.MatchIsTrue` and `BlockHits.Search.FoundIsTrue` say that it agrees with the
  window exactly when the hash was not stale. It never happens to a block of a perfect match (`BlockHits.InOrderVerified`).
- **Deferred hashing goes out of step on empty files.** The loop counts at least one block for every file.
  `SourceHashes.EmptyFileOutOfStep` gives an empty file followed by one with a block; `SourceHashes.CountsMatchIff` says
  that the count is right exactly when only the last files are empty. The command line drops empty files
  (installer_source/c++/par2cmdline-turbo/src/commandline.cpp:1073-1078), so only callers of the library can get there.
- **Hashing an empty file at once finishes a block that the packet has no room for.** The loop is skipped, a whole block is
  still needed, and the sum of block 0 is stored although there are no blocks, which the program only asserts against
  (installer_source/c++/par2cmdline-turbo/src/verificationpacket.cpp:63). `SourceHashes.EmptyFileHasNoRoom` is the empty
  file; `SourceHashes.Par2CreatorSourceFile.HashNow` says that there is room exactly when the file is not empty. The command
  line drops empty files, so again only callers of the library can get there.
- **The variable scheme can leave recovery files empty.** With an explicit number of files, none is empty exactly when the
  number of blocks has at least that many bits (`RecoveryFiles.AllocateVariable`): ten blocks in five files leave the last
  one empty (`RecoveryFiles.TenBlocksInFiveFiles`).
- **The chunk size can be zero.** `Par1Repairer.NoChunk` gives two outputs of a hundred bytes and a limit of seven;
  `Par1Repairer.ChunksAdvance` says when. The command line passes whole mebibytes
  (installer_source/c++/par2cmdline-turbo/src/commandline.cpp:1009) and there are fewer than 256 volumes, so only callers of
  `par1repair` can get there. `Par1Repairer.Repair` asks for a memory limit with which the loop advances.

## Left out

- Windows tools of the repository, option parsing, progress output, file renaming and purging, and character sets.
- MD5 and the multi-hash library: an unspecified function of the bytes fed; the functions behind them are not part of this model.
- SIMD and OpenCL kernels, and the macros they expand to: the multiply-add of the pipeline is unspecified, and with it the
  plain addition that stands in for it when the exponent of an output is zero.
- The matrix inversion of the PAR2 side (`Galois16RecMatrix`) is not part of this model; the solver is proved for PAR1.
- Read failures, memory exhaustion and the clean-up after failures: reads inside a file succeed.
- Integer widths: offsets and counts are unbounded, so 64-bit overflow of offset plus length and the 32-bit shift
  `1 << recoveryfilecount` are not modelled; the command line allows at most 31 recovery files.
- FileCheckSummer.FileCheckSummer.Jump: sums a full block after `Fill` and not beside it; `FillEnough` shows that `Fill` then has nothing to do.
- FileCheckSummer.FileCheckSummer.ViewBegins: what the window shows behind the end of the file, once the multi-hash is no
  longer in use, is left open: `Fill` returns before it blanks the buffer there, so it is what the memory held or what
  earlier reads left, and the program sums and compares it. Hits and misses in such windows are stated for these bytes.
- KernelPartition.RunKernel: the division by floating-point numbers is modelled with exact rationals, and the early
  return for a run without outputs is left out.
- Splitting the work over several back ends, discarding output between passes, and the build with libuv.
- PipelineRuns.StepKeeps: the state carries a history of batches that no step depends on; it is there to state the sums.
- PacketPlacement.PlacePackets: recovery and critical packets are one list in order of placement, where the program keeps two.
- BlockSize.ComputeBlockSize: sizes are those of non-empty files, as the command line passes them, and there is at least one.
- Par1Repairer.Repair: which blocks were found where, and which volumes are loaded, is given; scanning for them is not part of PAR1 here.
- SourceHashes.ProcessData: models the hashing that goes with the reading loop, not the sending of blocks to the pipeline.
- The digits of file names, file identifiers and the sorting of critical packets.
