# From a raw image to a flashed partition

A Dafny model of the path an image takes through the repository: it is held as a list of backed blocks,
cut into pieces that fit a download limit, written in the Android sparse format, carried over a transport,
parsed on the device and expanded onto a partition. Beside that path stand the repacking of vendor_boot
images and the two network transports.

One meaning runs through the libsparse part. `Blocks.Denote` maps a list of blocks to a partial map from
byte offset to byte, undefined in gaps. Every operation is stated against it: insertion and merging,
splitting, moving blocks between lists, cutting, writing, importing and expanding. The result they lead up to is
`EndToEnd.FlashImage`, the whole way of a plain image as one method over the real list, writer, reader and
device objects, with both ends of the TCP connection between them: if it ends well, a block device begins with
the image and keeps what was behind it.

The files follow the components.

- `Wire`, `Arith`: bytes, little-endian words, the rounding macros.
- `Blocks`, `Insertion`, `BackedBlockList`: blocks and their meaning, sorted insertion on values, and the linked
  list with its search hint, which is proved to do the same thing.
- `CrcTable`, `Crc`: the table of `sparse_crc32` and the loop over it, against eight shift steps a byte (the
  reflected CRC-32 of IEEE 802.3 clause 3.2.9, as in section 8 of RFC 1952).
- `SparseFormat`, `OutputCalls`, `OutputFile`, `SparseFile`: chunks and their bytes, the trace of an output
  callback, the chunk writers, and the sparse file object.
- `SparseFormatReader`, `SparseRead`, `NormalReader`: what the parser makes of a buffer, the parser itself, and the
  reader of plain images.
- `RoundTrip`, `CrcAgreement`, `NormalImage`: writer against reader, checksum against checksum, plain output against
  meaning.
- `Resparse`, `ResparseRuns`, `ResparseFile`, `ResparseSizes`, `ResparseEnds`: one cut, whole runs of cuts, the same on
  the real lists, sizes and counts of the pieces, and the limits under which the rounds end.
- `Flashing`, `Driver`, `EndToEnd`: the device side, the host's download, and both together.
- `Udp`, `UdpDelivery`, `Tcp`: the stop-and-wait sender, the sender with a device that follows PROTOCOL.md, and
  length framing over a byte stream.
- `VendorBoot`, `VendorBootUpdate`, `VendorBootLaws`, `VendorBootExample`: sections of a vendor_boot image, the
  two-cursor rewriter, what a rewritten image reads back as, and small images that show where the laws apply.

Some properties hold only under a condition, and the condition is proved to be exact.

- The chunk count that a file announces is the count it holds if and only if its length is a whole number of
  blocks (`SparseFormat.AnnouncedIsEmitted`). `sparse_file_new` accepts any length.
- A written file can be imported if and only if the conditions of `RoundTrip.ReadsBack` hold
  (`RoundTrip.ImportOfWrite`): a block count of 2^31 or more in one chunk comes back as a negative `int`, and a raw
  payload of 4 GiB or more loses its high bits in `total_sz`.
- Importing a buffer ends the process, rather than failing, when a chunk falls on a block number that is taken
  (`assert(a->block < b->block)`, `libsparse/backed_block.cpp:185`). That takes a fill of no blocks or block numbers
  that wrap around (`SparseFormatReader.AbortNeedsRepeat`); `RoundTrip.ImportCanAbort` is such a buffer of 60 bytes, and
  a file that the writer made never does it (`RoundTrip.ImportOfWrite`).
- The plain output is the image if and only if every fill is a whole number of blocks
  (`NormalImage.NormalIsImage`): `write_normal_fill_chunk` never skips a remainder.
- The writer's checksum covers the reader's bytes if and only if there is no gap and no fill of more than one
  block (`CrcAgreement.SumsAgree`). The comment in `libsparse/sparse_format.h` promises a checksum that counts
  "don't care" as 0; the writer hashes nothing for a skip and one block for a fill of any length. The model follows the code.
- A download that is reported as sent has sent the file if and only if no failing call lost a byte
  (`Driver.SentExactly`). `write_all_blocks` drops the result of every skip, in gaps as well as at the end
  (`libsparse/sparse.cpp:123` and `133`), and `output_file_close` that of the checksum chunk
  (`libsparse/output_file.cpp:611`); `Driver.LostExactly` says which calls then lose bytes, and `Driver.LostInASkip` is
  a file that is reported as sent with four bytes missing. Over TCP nothing can be lost that way, because the
  first failure closes the connection (`Driver.Download`).
- An expansion that is reported as flashed has painted the image, on every device, if and only if no byte was
  written behind a seek that failed (`Flashing.EffectExactly`); `Flashing.MisplacedBehindGap` is a block in the wrong
  place. On a device that refuses a seek only past its end, as a block device does, the size check in front of
  the expansion rules that out (`Flashing.FlashSparseData`).
- The rounds of resparse end if and only if the budget leaves room for a block behind a chunk header, or there
  is nothing but fills whose chunks fit (`ResparseEnds.EndsExactly`); one round gets stuck if and only if the first
  block alone is over the budget and less than one block is left for it (`ResparseEnds.StuckExactly`). A later split
  leaves a head of no bytes if and only if more than an eighth of the budget and less than a block is left
  (`ResparseEnds.EmptyHeadExactly`).
- An image is canonical if and only if its padding is zero and its offsets are prefix sums
  (`VendorBootLaws.CanonicalExactly`); undoing a fragment replacement whose sections stand restores every byte if and
  only if the first replacement leaves nothing at the very end that looks like an AVB footer
  (`VendorBootLaws.ReplaceAndRestore`).
- `copy_avb_footer` writes the footer last and over whatever is there: the sections of a rewritten image read back
  if and only if they end in front of the footer or hold the same bytes (`VendorBootLaws.BodyStands`,
  `VendorBootLaws.RewrittenReadsBack`). The size check at `fastboot/vendor_boot_img_utils.cpp:318` does not count the
  footer, so the rewriter can report success and destroy a section (`VendorBootExample.FooterDestroysName`).
- The search for a fragment reads inside the image if and only if the image contains the end of the last
  announced entry (`VendorBootUpdate.ReadsInsideExactly`); the check in front of it compares with another sum.
- The device behind a UDP sender processes every packet once as long as there are fewer than 2^16
  (`UdpDelivery.Delivered`); after exactly that many a late duplicate of the first one is processed again
  (`UdpDelivery.LateDuplicate`).
- A device's read over TCP uses a socket that is gone if and only if an earlier message broke off and was not
  read to its end (`Tcp.ClientTcpTransport.Read`, `Tcp.ReadAfterBreak`).

Preconditions that the code needs without checking them are written out: `Resparse.LimitOk` (a split always leaves
something on both sides), `RoundTrip.Solid` and `Blocks.Ordered` (disjoint non-empty blocks), block sizes that are
multiples of four, totals below 2^32 blocks, and for vendor_boot `VendorBootUpdate.Usable` (table entries have the
structure's size, the reads of the table stay inside the image, and image and page together are below 4 GiB).

Files and descriptors are immutable byte sequences (`Blocks.Store`). An assert that fails, and so ends the process,
is an outcome of its own (`Aborted`, `Crashed`), and so is the use of a socket that is gone (`NullSocket`).
Nondeterministic devices, sockets and transports are methods whose contracts leave the choice open. The argument marked `ghost` that some methods take is the specification of their
result, handed in so that each contract can be stated against it; it has no counterpart in the code.

## Model

| member | source | states |
|---|---|---|
| Blocks.SplitDenotes | libsparse/backed_block.cpp:346-389 | A block cut at a block boundary: the two parts hold exactly its bytes, for every kind of backing (a fill keeps its phase because the cut is word-aligned). |
| Blocks.SplitGeometry | libsparse/backed_block.cpp:350-368 | The first part ends where the second starts, and the second ends where the whole block ended. |
| Blocks.JoinDenotes | libsparse/backed_block.cpp:177-228 | Although adjacency is tested with the length rounded down, disjoint blocks pass the test only when the first one fills its blocks exactly; then the joined block holds exactly both contents. |
| Blocks.JoinNeedsDisjointness | libsparse/backed_block.cpp:190-196 | Without disjointness the same test joins two fills whose bytes the join does not keep. |
| Blocks.DenoteDomain | libsparse/backed_block.cpp:26-47 | Every offset that an ordered list gives a byte lies between its first and its last block. |
| Insertion.MergeAtKeeps | libsparse/backed_block.cpp:177-228 | A merge of neighbours in an ordered list changes neither the order, nor the end, nor the meaning. |
| Insertion.InsertDenotes | libsparse/backed_block.cpp:230-270 | Queueing a block that overlaps nothing: the list stays ordered and disjoint, the meaning is the disjoint union of the old one and the block, whatever was merged; a block behind all others becomes the new end. |
| Insertion.InsertFits | libsparse/backed_block.cpp:230-270 | A block that fits the list and the queued block still fits the list afterwards, even when the queued block was merged. |
| Insertion.InsertAllDenotes | libsparse/backed_block.cpp:230-270 | Any run of pairwise disjoint adds, in any order, builds an ordered disjoint list that means exactly the union of what was added. |
| Insertion.InsertWhole | libsparse/sparse_read.cpp:212-285 | Whole-block lengths survive queueing and merging. |
| BackedBlockList.BackedBlockList.MergeBb | libsparse/backed_block.cpp:177-228 | Fails exactly on the assert of equal or descending starts; otherwise the chain of nodes loses the second node exactly when the blocks are joinable, and the list is the specification's merge. |
| BackedBlockList.BackedBlockList.QueueBb | libsparse/backed_block.cpp:230-270 | For every position of the search hint the new list is `Insert` of the old one, the node chain is intact and the hint is null or a live member; it fails exactly when a queued block has the same start. |
| BackedBlockList.BackedBlockList.Search | libsparse/backed_block.cpp:243-252 | From the head or from the hint, the search stops at the last block that starts before the new one. |
| BackedBlockList.BackedBlockList.Split | libsparse/backed_block.cpp:346-389 | The list after a split: the block cut at the length rounded down to blocks, or untouched when it is no longer than that. |
| BackedBlockList.BackedBlockList.MoveTo | libsparse/backed_block.cpp:132-174 | Moving a run of nodes between two lists: both chains stay intact and share no node, no node is lost, the source keeps the rest in order, and the target has the run in front of its first later block but never before its head. |
| BackedBlockList.StartClash | libsparse/backed_block.cpp:177-186 | In a sorted list a clash of starts can only show at the place where the search stopped, so the assert in the merge is a complete check. |
| CrcTable.TableHolds | libsparse/sparse_crc32.cpp:49-81 | Every entry of the table is eight shift steps of its index with polynomial 0xedb88320. |
| Crc.ByteStep | libsparse/sparse_crc32.cpp:90-97 | Eight bit steps on a register and a byte are one table step and a shift by eight. |
| Crc.SparseCrc32 | libsparse/sparse_crc32.cpp:90-97 | For every start value and every buffer the table-driven loop returns the bit-at-a-time CRC-32. |
| Crc.Streams | libsparse/sparse_crc32.cpp:90-97 | The sum streams: continuing over a second buffer is summing the concatenation. |
| SparseFormat.EncodeAppend | libsparse/output_file.cpp:344-503 | Encoding a row of chunks is the concatenation of encoding its parts. |
| SparseFormat.ChunksAppend | libsparse/sparse.cpp:114-137 | The chunks of a list are those of its front followed by those of its rest, started where the front ends. |
| SparseFormat.CountIsLength | libsparse/sparse.cpp:71-89 | The counted chunks are the chunks written for the blocks. |
| SparseFormat.AnnouncedIsEmitted | libsparse/sparse.cpp:71-89 | The announced chunk count is the emitted one if and only if the length is a whole number of blocks; otherwise the trailing skip is counted but refused by the writer. |
| SparseFormat.TotalIsAnnounced | libsparse/output_file.cpp:651-664 | The blocks of the emitted chunks add up to the announced total. |
| RoundTrip.Announced | libsparse/sparse.cpp:71-89 | For any length: how many chunks are announced beyond those emitted, and that the emitted blocks never exceed the announced total. |
| OutputFile.OutputFile.constructor | libsparse/output_file.cpp:619-680 | A sparse output starts with the header of its block size, total blocks and chunk count, one more with a checksum. |
| OutputFile.OutputFile.WriteSparseSkipChunk | libsparse/output_file.cpp:344-366 | Emits one don't-care chunk, or refuses and emits nothing when the length is no whole number of blocks. |
| OutputFile.OutputFile.WriteSparseFillChunk | libsparse/output_file.cpp:368-397 | Emits one fill chunk of the rounded-up block count; the running sum takes in one block of the word. |
| OutputFile.OutputFile.WriteSparseDataChunk | libsparse/output_file.cpp:399-448 | Emits one raw chunk: the data and zeros up to the block, both summed. |
| OutputFile.OutputFile.WriteSparseFdChunk | libsparse/output_file.cpp:450-503 | The same bytes and the same sum when the data comes from a file in mapped pieces. |
| OutputFile.OutputFile.WriteFdChunkRange | libsparse/output_file.cpp:324-342 | Pieces of 256 MiB: the range of the file is written and summed exactly once, in order. |
| OutputFile.OutputFile.WriteSparseEndChunk | libsparse/output_file.cpp:505-528 | With a checksum in use, one more chunk holding the sum over all chunks before it. |
| OutputFile.OutputFile.WriteNormalDataChunk | libsparse/output_file.cpp:538-552 | Data, then a skip to the block boundary. |
| OutputFile.OutputFile.WriteNormalFillChunk | libsparse/output_file.cpp:554-575 | The whole fill, in pieces of the fill buffer, and no skip behind it. |
| OutputFile.OutputFile.WriteNormalFdChunk | libsparse/output_file.cpp:577-592 | File data in mapped pieces, then a skip to the block boundary. |
| OutputFile.OutputFile.SkipOver | libsparse/output_file.cpp:264-279 | A skip of any length comes out as callback calls of at most INT_MAX that add up to it, each marked with whether its failure is looked at, dropped, or ends the skip. |
| SparseFile.SparseFile.Add | libsparse/sparse.cpp:53-70 | Queues a block of any of the four kinds; fails exactly on an equal start. |
| SparseFile.SparseFile.CountOfChunks | libsparse/sparse.cpp:71-89 | Returns the number of chunks of the list, with gaps and the trailing skip. |
| SparseFile.SparseFile.WriteAllSparse | libsparse/sparse.cpp:114-137 | Reaches its end if and only if the blocks end within the length; then exactly the chunks of the list have been emitted. |
| SparseFile.SparseFile.WriteAllNormal | libsparse/sparse.cpp:114-137 | The same for a plain output: exactly the cells of the list and holes up to the length. |
| SparseFile.SparseFile.CallbackSparse | libsparse/sparse.cpp:168-184 | The very calls that the callback gets, as a function of the list, with its gaps, padding and pieces; together they are exactly the bytes of the sparse file, and failures are passed over for the bytes of skips and of the checksum chunk alone. |
| SparseFile.SparseFile.CallbackNormal | libsparse/sparse.cpp:168-184 | The very calls that the callback gets; together they are the plain image, and failures are passed over for the skips over gaps and at the end alone. |
| SparseFile.SparseFile.Len | libsparse/sparse.cpp:236-257 | The reported length is the number of bytes the callback version emits, sparse or plain. |
| OutputCalls.SentIsCounted | libsparse/sparse.cpp:230-234 | What the counting callback adds up is the size of what the writing one is given. |
| SparseRead.SparseFileBufSource.AccessOkay | libsparse/sparse_read.cpp:124-148 | The bounds check of the buffer source: good if and only if the length is positive and ends inside the buffer; a zero length is invalid, anything else overflows. |
| SparseRead.SparseFileBufSource.AddToSparseFile | libsparse/sparse_read.cpp:167-173 | Bounds first, then the block list; the block refers to the buffer at the current offset. |
| SparseRead.ProcessRawChunk | libsparse/sparse_read.cpp:212-244 | A raw chunk is read as the specification reads it: every check, the queued block, the new offset and the running sum. |
| SparseRead.ProcessFillChunk | libsparse/sparse_read.cpp:246-285 | The same for a fill chunk, summed over its full length in copy-buffer pieces. |
| SparseRead.ProcessSkipChunk | libsparse/sparse_read.cpp:287-306 | The same for a don't-care chunk, summed as zeros. |
| SparseRead.ProcessCrc32Chunk | libsparse/sparse_read.cpp:308-325 | A checksum chunk is compared only when checking is on. |
| SparseRead.ProcessChunkAt | libsparse/sparse_read.cpp:327-375 | Dispatch on the chunk type; block counts of 2^31 or more read as errors, unknown types count for nothing. |
| SparseRead.ReadSparseInto | libsparse/sparse_read.cpp:377-458 | Header checks, all chunks, and the comparison of the total: the file holds what the specification says, or the same error comes back. |
| SparseRead.SparseFileImportBuf | libsparse/sparse_read.cpp:594-666 | The imported file; null exactly when a check of the specification fails; the process ends exactly when a second block falls on a block number that is taken. |
| SparseFormatReader.AbortNeedsRepeat | libsparse/backed_block.cpp:177-186 | The importer ends in the assert only behind a fill of no blocks or when block numbers wrap around. |
| RoundTrip.ImportCanAbort | libsparse/backed_block.cpp:177-186 | A fill of no blocks and another fill at the same block, 60 bytes in all: the importer ends in the assert. |
| SparseFormatReader.InsertSorted | libsparse/backed_block.cpp:230-270 | Queueing a new start keeps a list strictly sorted even when blocks overlap, so the parser can always go on. |
| SparseFormatReader.ImportInMemory | libsparse/sparse_read.cpp:124-196 | Whatever the buffer, an imported file has a positive length, a block size that is a multiple of four, and only blocks whose bytes are there. |
| RoundTrip.HeaderDecodes | libsparse/sparse_format.h:25-37 | The file header as written reads back field by field. |
| RoundTrip.ChunkHeadDecodes | libsparse/sparse_format.h:46-51 | A chunk header as written reads back with both sizes in 32 bits. |
| RoundTrip.SizeChecks | libsparse/sparse_read.cpp:219-225 | The reader's two size checks accept a raw chunk if and only if its payload is below 4 GiB. |
| RoundTrip.ReadOne | libsparse/sparse_read.cpp:327-375 | One written chunk, read back: taken if and only if the format can carry it, and then exactly the written block is queued. |
| RoundTrip.BehindStands | libsparse/sparse_read.cpp:327-375 | What reading one chunk keeps: the blocks stay ordered, disjoint and whole, and mean what they meant and the chunk. |
| RoundTrip.ReadRun | libsparse/sparse_read.cpp:413-437 | The reader gets past a row of written chunks if and only if every one is representable. |
| RoundTrip.BehindRun | libsparse/sparse_read.cpp:413-437 | Where the reader stands behind a row of chunks: offset, block, sum of the full expansion, and the map of the chunks. |
| RoundTrip.MapOfFile | libsparse/sparse.cpp:114-137 | The chunks of a file stand for its blocks, each padded to whole blocks. |
| RoundTrip.ImportOfWrite | libsparse/sparse_read.cpp:377-458 | Write, then import: never ends in an assert, and succeeds if and only if the block size is a multiple of four, the length is positive and whole, every chunk is representable and, with checking on both sides, the two sums agree; then block size, length and the padded image come back. |
| RoundTrip.ImportIsIdentity | libsparse/sparse_read.cpp:377-458 | With whole blocks and no checksum, write then import is the identity on images. |
| RoundTrip.PaddedAt | libsparse/output_file.cpp:399-448 | Padding changes no byte of the image, and all it adds lies behind the end of a partial block. |
| CrcAgreement.WriterSumIs | libsparse/output_file.cpp:344-503 | The writer's sum is the CRC of one block per fill, all raw data, and nothing for skips. |
| CrcAgreement.SameBytes | libsparse/output_file.cpp:388-391 | Writer and reader hash the same bytes if and only if every chunk is raw or a fill of one block. |
| CrcAgreement.ExpansionAt | libsparse/sparse_format.h:34-36 | The expansion that the reader sums holds the bytes of the chunks and zeros for don't-care. |
| CrcAgreement.ReaderSumsTheImage | libsparse/sparse_read.cpp:270-303 | What the reader sums over a written file is the padded image of exactly the length, with zeros in its gaps. |
| CrcAgreement.SumsAgree | libsparse/output_file.cpp:344-397 | In terms of the list: the two sums cover the same bytes if and only if there is no gap, not even at the end, and no fill longer than a block; then they are equal. |
| CrcAgreement.GapDisagrees | libsparse/output_file.cpp:344-366 | One skipped block: the file is written with sum 0 and its checked import fails, while the unchecked one succeeds. |
| CrcAgreement.LongFillDisagrees | libsparse/output_file.cpp:388-391 | One fill of two blocks: the written sum covers one of them, and the checked import fails. |
| NormalImage.ImageSize | libsparse/output_file.cpp:538-592 | The plain output is as long as its blocks if and only if every fill is a whole number of blocks; each other fill makes it shorter. |
| NormalImage.NormalIsImage | libsparse/output_file.cpp:538-596 | The plain output is the image, position by position, if and only if every fill is a whole number of blocks. |
| NormalImage.UnalignedFillShifts | libsparse/output_file.cpp:554-575 | A fill of five bytes in four-byte blocks leaves the output three positions short. |
| NormalReader.IsRepeatedWord | libsparse/sparse_read.cpp:478-489 | True if and only if the block is its first word repeated. |
| NormalReader.DoReadNormal | libsparse/sparse_read.cpp:460-505 | Fails exactly when the file is too short; otherwise the blocks of the range are queued in turn, whole blocks of one word as fills, and the list means what it meant and the bytes of the range. |
| Resparse.ScanProgress | libsparse/sparse.cpp:299-311 | Every round takes something, and a split leaves bytes on both sides. |
| Resparse.ScanBounds | libsparse/sparse.cpp:278-311 | A round takes at most the budget and one uncounted skip header, and at least seven eighths of the budget less a chunk header when it stops early. |
| Resparse.CutOrdered | libsparse/sparse.cpp:299-318 | A cut leaves two lists that lie end to end in order and end where the input ended. |
| Resparse.CutDenotes | libsparse/sparse.cpp:299-318 | A cut loses nothing: the two lists together mean what the input meant. |
| ResparseRuns.RoundShrinks | libsparse/sparse.cpp:338-358 | Each round strictly shrinks what the input holds and leaves it fit for the next round, so the loop ends. |
| ResparseRuns.PiecesRefine | libsparse/sparse.cpp:326-365 | The pieces end to end are the input with some blocks split at block boundaries, in order, ending where the input ends; each piece is ordered. |
| ResparseRuns.PiecesDenote | libsparse/sparse.cpp:326-365 | The meanings of the pieces add up to the meaning of the input. |
| ResparseRuns.PiecesDisjoint | libsparse/sparse.cpp:326-365 | No two pieces share an offset. |
| ResparseRuns.PiecesNotEmpty | libsparse/sparse.cpp:338-358 | Every piece but the last holds at least one block. |
| ResparseRuns.LastPieceCanBeEmpty | libsparse/sparse.cpp:299-318 | A last block that is moved whole because only its uncounted skip header exceeds the budget leaves one empty piece behind it. |
| ResparseRuns.SecondRunAgrees | fastboot/fastboot.cpp:972-990 | Cutting again everything a first run produced gives the very same pieces, so a counting run sizes the array for the run that fills it. |
| ResparseFile.CountBlock | libsparse/sparse.cpp:288-298 | What the counting output reports for a block is its cost with the skip header in front. |
| ResparseFile.FindCut | libsparse/sparse.cpp:288-315 | The loop stops at the specification's cut point. |
| ResparseFile.MoveChunksUpToLen | libsparse/sparse.cpp:263-324 | One round on the real lists: the piece moves to the target, the rest stays, and the handed-back block says whether there is more. |
| ResparseFile.SparseFileResparse | libsparse/sparse.cpp:326-365 | For every array size the count is the number of pieces, the array gets the first of them in files that share nothing, and the input keeps the rest end to end. |
| ResparseFile.ResparseInTwoPasses | fastboot/fastboot.cpp:972-990 | A limit out of range dies; otherwise the array sized by the first call is exactly filled by the second with the pieces of the original list. |
| ResparseSizes.EncodedBody | libsparse/sparse.cpp:288-298 | The cost that resparse counts is the size of the chunks that are written. |
| ResparseSizes.FileSize | libsparse/sparse.cpp:236-257 | The exact size of a written file: header, chunks, trailing skip, checksum. |
| ResparseSizes.PieceBodies | libsparse/sparse.cpp:278-311 | Every piece is within the budget and one skip header; all but the last nearly fill it. |
| ResparseSizes.PiecesFit | libsparse/sparse.cpp:278-311 | Every piece is at least four bytes below the limit without a checksum and at most twelve above it with one; all but the last are at least seven eighths of it. |
| ResparseSizes.CrcOverrun | libsparse/sparse.cpp:278-311 | With a checksum the twelve bytes are reached: a gap, a cut block and a trailing skip. |
| ResparseSizes.TotalCost | libsparse/sparse.cpp:326-365 | Cutting adds at most 28 bytes a cut to what is written in all. |
| ResparseSizes.PieceCount | libsparse/sparse.cpp:299-311 | The size of the uncut file bounds the number of pieces. |
| ResparseEnds.StuckExactly | libsparse/sparse.cpp:338-358 | For any limit, a round leaves its input as it was and asks for another if and only if the first block alone exceeds the budget and less than a block of the budget is left. |
| ResparseEnds.EndsExactly | libsparse/sparse.cpp:326-365 | For any limit and any ordered list the rounds end if and only if the budget leaves room for a block behind a chunk header, or the list is empty, or it is all fills and 28 bytes fit, or it is one fill at the start and 16 bytes fit. |
| ResparseEnds.EndsWithPieces | libsparse/sparse.cpp:338-358 | Under a usable limit the rounds end after exactly as many as there are pieces. |
| ResparseEnds.OneBlockNeverEnds | libsparse/sparse.cpp:326-365 | With a limit of one block of 4096 bytes a single raw block is never taken and the loop never ends. |
| ResparseEnds.EmptyHeadExactly | libsparse/sparse.cpp:299-311 | A round that has taken a block cuts a head of no bytes off block k if and only if that is the first over the budget and what is left for it is more than an eighth of the budget and less than a block; never when a block is at most an eighth and a byte. |
| ResparseEnds.EmptyHead | libsparse/sparse.cpp:299-311 | Two fills and a raw block under a limit of 156 bytes: the rounds end, and the first one moves a block of no bytes. |
| Flashing.FlashRawDataChunk | fastboot/device/flashing.cpp:80-123 | Whatever part of each write the device takes, on success the data is stored at the cursor once and in order, and the cursor is behind it. |
| Flashing.WriteCallback | fastboot/device/flashing.cpp:130-150 | Null data moves the cursor, other data is stored; a seek that fails moves nothing, and on a steady device fails only past its end. |
| Flashing.Expand | libsparse/sparse.cpp:114-137 | The calls of an expansion with the writer's answer to each failure: on success the device is painted with the output of the calls that took effect, each where the cursor then was; on a steady device with room these are all of them. |
| Flashing.OnlySkipsLost | libsparse/sparse.cpp:120-134 | An expansion that is not given up has lost only seeks, never a write. |
| Flashing.EffectExactly | libsparse/sparse.cpp:120-134 | The painting is that of the whole output, on every device with room, if and only if no byte is written behind a lost seek. |
| Flashing.MisplacedBehindGap | libsparse/sparse.cpp:123 | Of the very calls made for a block behind a gap the seek fails: the block is written at the old position, and the expansion reports success. |
| Flashing.FlashSparseData | fastboot/device/flashing.cpp:152-173 | Not sparse exactly when a check of the importer fails, crashed exactly when the importer ends in its assert or the blocks end behind the length, too big exactly when the expansion is, and then with the device untouched; on success the device is painted by a run of the expansion's calls that only lost seeks, and a steady device with room by the whole expansion. |
| Flashing.FlashBlockDevice | fastboot/device/flashing.cpp:175-184 | Dispatch on the first four bytes, from the start of the device. |
| Driver.SparseWriteCallback | fastboot/fastboot_driver.cpp:597-628 | For whatever way its two sends end, the result, the bytes held back and the sends are those of `Driver.Cut`. |
| Driver.CutKeeps | fastboot/fastboot_driver.cpp:597-628 | On success what was held back and the new data go out in nonzero multiples of 1024, with less than 1024 held back and no byte lost or moved; a failing call loses exactly what did not fit its first chunk. |
| Driver.FeedCalls | libsparse/sparse.cpp:114-137 | The writer's calls in turn, a checked failure ending the run and a dropped one passed over: sends and held-back bytes are those of `Driver.Feed`; when no send failed every call is accounted for in full. |
| Driver.FeedKeeps | libsparse/sparse.cpp:114-137 | Over every run: what was sent and is held back are the bytes accounted for, in order, and as long as the run is not given up these are all bytes of all checked calls. |
| Driver.SentExactly | fastboot/fastboot_driver.cpp:259-297 | With the last flush, a run that is not given up has sent the file's bytes if and only if no failing call lost any, and as many bytes exactly then. |
| Driver.NothingLost | fastboot/fastboot_driver.cpp:597-628 | A run in which every send succeeds is not given up and loses nothing. |
| Driver.LostExactly | fastboot/fastboot_driver.cpp:597-628 | A call loses bytes if and only if it is left out behind a failure of its own operation, or its send fails and it has more bytes than the held-back chunk has room for. |
| Driver.LostInASkip | libsparse/sparse.cpp:133 | The very calls made for 976 bytes of data and one skipped block behind them: the send inside the skip fails, the flush succeeds, and 1024 of 1028 bytes have been sent. |
| Driver.Download | fastboot/fastboot_driver.cpp:259-297 | The announced size is the size of the file; a download reported as sent has sent every byte of every checked call in order, and the whole file if and only if no failing call lost any, which is so over TCP and wherever no send failed; every send but the last is a nonzero multiple of 1024; refused and crashed exactly under their conditions. |
| EndToEnd.PieceSendable | libsparse/sparse.cpp:326-365 | Every piece of a whole-block list fits the format: whole, ordered, no raw block of 4 GiB. |
| EndToEnd.PieceExpands | fastboot/device/flashing.cpp:152-173 | The device makes of a written piece an image of the full length that holds the piece's bytes. |
| EndToEnd.PieceUpdates | fastboot/device/flashing.cpp:152-173 | Flashing one piece changes the offsets of its own blocks and no other. |
| EndToEnd.PiecesRestoreImage | fastboot/fastboot.cpp:1234-1243 | The pieces of a list that means an image, flashed in order onto any device with room, give the image and behind it the old contents. |
| EndToEnd.SendOverTcp | fastboot/fastboot_driver.cpp:259-297 | One file through the download, the host's framing and the device's DATA phase: if it ends well the device has exactly the bytes of the sparse file. |
| EndToEnd.Receive | fastboot/device/tcp_client.cpp:95-148 | What the device reads of the announced size is what the host sent, whatever the sends were. |
| EndToEnd.FlashFile | fastboot/fastboot.cpp:1234-1243 | One file through download over TCP, import and expansion: on success a steady device with room has been updated with what the file's blocks hold. |
| EndToEnd.FlashPartitionFiles | fastboot/fastboot.cpp:1234-1243 | The files in order, up to the first that does not get through; a steady device then has all of them. |
| EndToEnd.FlashImage | fastboot/fastboot.cpp:972-990 | The whole way of a plain image: if it ends well the image was a whole number of blocks and a steady device holds it and its old tail; for such an image and a device with room only the transport or the device's writes can make it end otherwise. |
| Udp.SendCarriesSequence | fastboot/udp.cpp:86-91 | Over every proper run each send carries the starting number plus the replies taken so far, modulo 2^16. |
| Udp.RetransmissionsAreIdentical | fastboot/udp.cpp:253-270 | Two sends with no reply taken between them are the same packet. |
| Udp.SendsAreBounded | fastboot/udp.cpp:260-290 | No window without a taken reply holds more sends than the attempts. |
| Udp.TakenCarriesSequence | fastboot/udp.cpp:93-99 | A reply that is taken carries the number of the exchange it ends. |
| Udp.DuplicatesAreIgnored | fastboot/udp.cpp:93-99 | A packet that was taken is not taken again as a duplicate unless a multiple of 2^16 exchanges lies in between. |
| Udp.UdpTransport.Transmit | fastboot/udp.cpp:262-284 | One send and the receives behind it: stale and foreign packets are passed over, the first match, timeout or error ends it. |
| Udp.UdpTransport.SendSinglePacketHelper | fastboot/udp.cpp:253-326 | The run over the wire is proper whatever arrives; on success the packet and its prompts were sent once each, and the buffer holds the first bytes of the replies. |
| Udp.UdpTransport.SendData | fastboot/udp.cpp:207-251 | On success the data went out in as many chunks as it takes, each marked continued but the last; the total counts all reply bytes and the buffer holds the first of them; giving up means all attempts were used. |
| Udp.UdpTransport.InitializeProtocol | fastboot/udp.cpp:153-203 | The handshake: the number and packet size that both sides agreed on, from their own packets. |
| Udp.UdpTransport.Read | fastboot/udp.cpp:328-345 | An empty packet; the reply data, unless it is more than asked for. |
| Udp.UdpTransport.Write | fastboot/udp.cpp:347-362 | The data in its chunks, answered by nothing but empty replies. |
| UdpDelivery.RunsInStep | fastboot/PROTOCOL.md:386-400 | With a device that follows the documented rules, every run of losses, repeats and delays keeps it level with the host or one packet ahead. |
| UdpDelivery.Delivered | fastboot/PROTOCOL.md:360-376 | When the sender rests, the device has processed each of its packets exactly once and in order, and the host has taken the device's answers in order. |
| UdpDelivery.LateDuplicate | fastboot/PROTOCOL.md:386-400 | After 2^16 faultless exchanges, or a multiple, a late duplicate of the first packet is processed once more. |
| Tcp.BigEndianRoundTrip | fastboot/tcp.cpp:41-54 | A length survives the trip through k bytes if and only if it is below 256^k. |
| Tcp.BigEndianInverse | fastboot/tcp.cpp:41-54 | Bytes read as a length and encoded again are the same bytes. |
| Tcp.EncodeMessageLength | fastboot/tcp.cpp:50-54 | The eight big-endian bytes of a length. |
| Tcp.ExtractMessageLength | fastboot/device/tcp_client.cpp:33-39 | The number that eight big-endian bytes stand for. |
| Tcp.TcpSocket.ReceiveAll | fastboot/socket.cpp:55-73 | As many of the bytes as will ever arrive, in order, however they are split; none at all is failure. |
| Tcp.SendAll | fastboot/socket.cpp:202-234 | Unless the last one is empty, the buffers go out whole and in order over as many partial sends as it takes. |
| Tcp.SkipSent | fastboot/socket.cpp:212-231 | After a partial send the remaining buffers hold exactly the bytes not yet sent; an empty buffer at the end never goes. |
| Tcp.NextMessage | fastboot/device/tcp_client.cpp:102-124 | The next header of a framed stream is the length of the next message. |
| Tcp.ClientTcpTransport.Read | fastboot/device/tcp_client.cpp:95-148 | A read gets the next payload bytes in order and leaves the others; in the DATA phase exactly as many as asked for, across messages, ending between messages if they end there; it uses a socket that is gone if and only if the connection was closed with bytes of a message still due. |
| Tcp.ReadAfterBreak | fastboot/device/tcp_client.cpp:126-140 | After a message has broken off, the first read fails and the second one uses a socket that is gone. |
| Tcp.ClientTcpTransport.Write | fastboot/device/tcp_client.cpp:150-172 | One framed message; the DATA phase is on exactly when the answer announces data. |
| Tcp.TcpTransport.Write | fastboot/tcp.cpp:156-170 | One framed message, or the connection is closed. |
| Tcp.TcpTransport.Read | fastboot/tcp.cpp:128-154 | Bytes of the pending message or of the next one, and the rest stays pending. |
| Tcp.Transfer | fastboot/device/tcp_client.cpp:95-148 | Framing is invisible: however the payload is cut into non-empty writes and however the stream is split, a DATA-phase read of its length returns it and uses up exactly the messages. |
| VendorBootUpdate.DataUpdater.Copy | fastboot/vendor_boot_img_utils.cpp:39-50 | Both cursors advance over the copied bytes; fails exactly when either would leave its buffer. |
| VendorBootUpdate.DataUpdater.Replace | fastboot/vendor_boot_img_utils.cpp:54-68 | The new bytes in place of the old ones, with the same bounds. |
| VendorBootUpdate.DataUpdater.Skip | fastboot/vendor_boot_img_utils.cpp:70-78 | Both cursors advance; the skipped part of the new buffer is zero. |
| VendorBootUpdate.DataUpdater.CopyAvbFooter | fastboot/vendor_boot_img_utils.cpp:197-202 | A footer at the very end is carried over, and nothing else changes. |
| VendorBootUpdate.FindUniqueRamdisk | fastboot/vendor_boot_img_utils.cpp:278-300 | The one entry of the name; an error exactly when there is none or more than one. |
| VendorBootUpdate.CopyFragments | fastboot/vendor_boot_img_utils.cpp:341-358 | All fragments in table order with one replaced; fails exactly when either side runs out of room. |
| VendorBootUpdate.CopyTable | fastboot/vendor_boot_img_utils.cpp:374-387 | The table with prefix-sum offsets and the one new size. |
| VendorBootUpdate.CheckVendorBootHdr | fastboot/vendor_boot_img_utils.cpp:137-162 | Accepts exactly a version 4 image with the magic, a page size and room for its header. |
| VendorBootUpdate.Rebuild | fastboot/vendor_boot_img_utils.cpp:333-402 | Succeeds if and only if the entries lie inside their section, the fragments are the announced ramdisk and the new sections fit; then the result is the image of the old parts with the fragment replaced. |
| VendorBootUpdate.ReadsInsideExactly | fastboot/vendor_boot_img_utils.cpp:323-331 | The entries that are read lie inside the image if and only if there are none or the image contains the end of the last one. |
| VendorBootExample.ReadsLeaveTheImage | fastboot/vendor_boot_img_utils.cpp:317-331 | Two announced entries in a section for one pass both size checks, and the second lies behind the image. |
| VendorBootUpdate.ReplaceVendorRamdiskFragment | fastboot/vendor_boot_img_utils.cpp:304-403 | Succeeds if and only if the image is sound, exactly one entry has the name and there is room; then the result is the rewritten image. |
| VendorBootLaws.BodyStands | fastboot/vendor_boot_img_utils.cpp:197-202 | The footer is written last: the composed image begins with its sections if and only if they end in front of the footer or hold the same bytes. |
| VendorBootLaws.RewrittenReadsBack | fastboot/vendor_boot_img_utils.cpp:304-403 | The rewritten image reads back if and only if the footer leaves the sections untouched: old size, old header but for the ramdisk size, the named fragment as the new one, every other fragment, device tree and bootconfig unchanged; and the footer, if and only if none appears in an image without one. |
| VendorBootLaws.FooterReadsBack | fastboot/vendor_boot_img_utils.cpp:197-202 | A composed image has the footer it was given if and only if none appears by chance; none does behind a footer's length of spare bytes. |
| VendorBootLaws.TableReads | fastboot/vendor_boot_img_utils.cpp:374-387 | In a rewritten table sizes are the fragments' sizes, offsets their prefix sums, names the old ones. |
| VendorBootLaws.ReplaceAndRestore | fastboot/vendor_boot_img_utils.cpp:304-403 | Replacing a fragment and then replacing it back with its old bytes is possible and, for a canonical image, restores every byte if and only if no footer appears at the end of the first result. |
| VendorBootExample.LawApplies | fastboot/vendor_boot_img_utils.cpp:304-403 | Small images, with and without spare bytes or a footer, meet all premises of replacing and restoring at once. |
| VendorBootExample.FooterDestroysName | fastboot/vendor_boot_img_utils.cpp:197-202 | A fragment that moves the table into the place of the footer: the rewriter succeeds, the entry's name is gone, and no fragment of that name can be replaced any more. |
| VendorBootExample.RestoredUnlessMagic | fastboot/vendor_boot_img_utils.cpp:197-202 | A replacement that leaves the table at the very end is undone if and only if the last byte is not the footer's magic. |
| VendorBootLaws.CanonicalExactly | fastboot/vendor_boot_img_utils.cpp:341-387 | An image is canonical if and only if the ramdisk padding and the bytes before the footer are zero and the table's offsets are prefix sums. |

## Left out

- SparseFile.SparseFile.CallbackSparse: requires that the blocks end below block 2^32; the code's `last_block` is an `unsigned int` and would wrap. The same holds for CallbackNormal, CountOfChunks, WriteAllSparse, WriteAllNormal and Len.
- Flashing.FlashSparseData: requires the same of an imported file, which only a malformed image can violate; every file the writer produces meets it (EndToEnd.PieceExpands).
- Flashing.Expand: ends at a failing write; the code then still goes through `output_file_close`, which makes no call for a plain output, and reports the same failure.
- Driver.Download: ends at a failing send of a data or fill chunk or of the header; the code then still tries the checksum chunk, if there is one, before it reports the same failure.
- ResparseFile.SparseFileResparse: requires a limit under which no round gets stuck or cuts off an empty block; when the rounds end under any other limit is ResparseEnds.EndsExactly, and when they cut off an empty block is ResparseEnds.EmptyHeadExactly.
- SparseFormatReader.ImageLen: is not bounded; the code's int64_t product overflows from 2^63 on, which a header of more than 2^31 blocks can announce.
- EndToEnd.FlashImage: requires a non-empty image below 2^31 blocks; a longer skip or fill cannot be represented in one chunk (RoundTrip.ImportOfWrite).
- Udp.Socket.Receive: what arrives is a finite script, so a peer that answers with continuations or foreign packets forever is not a run of the model.
- UdpDelivery.Delivered: holds for fewer than 2^16 packets; that it fails from there on is UdpDelivery.LateDuplicate. Query packets, which the device answers regardless of their number, are not part of it.
- Tcp.SendAll: requires that the last buffer is not empty; an empty one at the end never goes (Tcp.SkipSent), so the code's loop would not end.
- Tcp.ClientTcpTransport.Read: is about a connection that was handed over. Accepting a new connection and the handshake are not part of it.
- VendorBootUpdate.ReplaceVendorRamdiskFragment: requires VendorBootUpdate.Usable: where the code reads past the image (VendorBootUpdate.ReadsInsideExactly, VendorBootExample.ReadsLeaveTheImage), copies entries of another size than it rewrites, or is given an image that together with a page reaches 4 GiB, the model says nothing; bootimg.h is not part of this model, so the positions of the fields are a parameter that only has to be free of overlaps.
- VendorBootLaws.ReplaceAndRestore: for a first replacement whose sections stand in the sense of VendorBootLaws.Untouched; otherwise its result has lost bytes, and often cannot be replaced in again (VendorBootExample.FooterDestroysName).
- VendorBootLaws.CanonicalExactly: for images whose sections end in front of their footer.
- `replace_default_vendor_ramdisk`: the same rewriter with a single new table entry.
- `SparseFileFdSource` and reading a file with holes: the buffer source and the normal reader stand for them.
- `sparse_file_write`, gzip and plain file outputs, `output_file` errors, malloc failures, `cur_out_ptr` (never read).
- `sparse_file_foreach_chunk`, verbose messages, error strings.
- `TcpSocket::Send(const void*, size_t)`: used for four-byte handshakes only.
- O_DIRECT, page alignment, partition locks and the partition-table re-read in flashing.cpp; a partition is a byte sequence with a cursor.
- Command parsing, the response handling of the fastboot driver, `max-download-size` negotiation, super partitions, USB transports, getvar and OEM commands.
