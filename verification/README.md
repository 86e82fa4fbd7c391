# flowfile-utils in Dafny

A model of the hand-written protocols of flowfile-utils, a set of tools that move FlowFiles over lossy,
unordered or crash-prone channels, with proofs of what they keep. `dafny verify dfyconfig.toml` checks
everything.

Each protocol is first a state machine on values (`Next`, `Run`, `Step`, ...), about which the theorems
speak: they hold for every run, every interleaving and every input. The programs themselves, loops and
fields updated in place, are methods of classes whose contracts tie every call to that state machine. The
libraries the protocols depend on, which the repository vendors, are modelled as they are: the write buffer,
the FlowFile parser and scanner, and what closing an HTTP request reports.

| files | what they model |
|---|---|
| `Words`, `Wire`, `Files` | Go's integers; the 34-byte datagram header; writing into a file and truncating it |
| `Fragments`, `WriteBuffer`, `BufferedFile` | the vendored write buffer: its fragments, its 32 MiB window, its flushes |
| `Storage`, `Switching` | a job's file behind that buffer, and the switch to direct writes |
| `Sender`, `Reassembly`, `Delivery`, `LossTolerance`, `Limits` | FlowFile streams cut into UDP datagrams, sent twice, and put together again |
| `Datagrams` | what a datagram of any bytes does to the receiver |
| `FlowFile`, `StreamChecksum`, `Verification` | encoded FlowFiles and their parser; the checksum that starts in the middle of the stream; what the worker checks before it forwards a job, and what it finds to forward |
| `Ports` | port specifications, port pairing and the pool of senders |
| `Resequencer` | a TCP connection carried over numbered packets |
| `Scanner` | FlowFiles read one after the other from a file on disk |
| `Paths` | which paths the unstager takes for leading upward |
| `Staging`, `StagingLimits`, `Backlog`, `StagingArea` | stager and unstager sharing a directory, with crashes |
| `Progress`, `Completion` | the progress file of a segmented file, and posts racing to complete it |
| `KcpPool`, `KcpSender` | the pools of connections and worker tokens in front of KCP |
| `Dedup` | links sent instead of repeated content |

What the code does not do in every case is stated with the exact condition under which it does:

- reassembled files of a size are right for every loss and reordering exactly if the size is at most 32 MiB,
  unless all larger ones have nothing but zeros behind their first chunk in the buffer's window: beyond that,
  `FlushAll` puts pending bytes in the wrong place (`Limits.SafeSizeIff`, `WriteBuffer.GiveUpKeepsIff`), and
  the wrong file is forwarded without a check (`Limits.LargeIsUnsafe`);
- the receive buffer must hold the largest datagram (`Limits.DeliveredIffBufferFits`,
  `Limits.BufferMustFitIff`);
- a transfer with the all-zero UUID panics a fresh receiver (`Limits.FirstChunkPanicsIff`), and so do sizes and
  offsets that come out negative as signed numbers (`Datagrams.PanicsIff`);
- the checksum is computed on the way if the attributes ask for it, the payload has eight bytes, and no
  piece of the stream ends where the parser gives up (`StreamChecksum.HashedIff`), which blocks of 4 KiB do
  not unless the attributes are long (`StreamChecksum.BlocksSurviveIff`);
- the size that decides whether a job is checked at all is read from the payload instead of from the length
  in front of it, so a short payload, or one that begins with eight zeros, is not checked
  (`Verification.UncheckedIff`), and the check after the switch to direct writes reads other bytes than the
  normal one (`Verification.ChecksDiffer`);
- an error of the disk in the last flush leaves the file without its end, which is then checked instead of the
  hash that had all of it, or forwarded if nothing is checked (`Verification.FailedFlush`);
- bytes missing at the start of a window that has moved go unnoticed by the buffer's last flush if everything
  pending ends within a block of it (`WriteBuffer.FlushErrsIff`);
- late duplicates open a second connection unless EOF was the packet that completed the stream
  (`Resequencer.SecondConnectionIff`), which is then written the late packets as a stream of their own;
- reading FlowFiles from a file on disk goes on inside the payload of the last one found, so that a batch is
  found whole only if its last FlowFile alone has a payload, but for payloads that pass for what follows them
  (`Scanner.WholeIff`); a payload that begins like a FlowFile is forwarded as one (`Verification.ForwardedOnceIff`);
- staged batches are safe exactly if they are found whole or never got past, scripts do not delete staged
  files, a `.json` can be removed, and downstream never answers with a status other than 200, which the
  unstager does not look at (`StagingLimits.CommitProtocolSafeIff`); of other batches FlowFiles are lost
  (`StagingLimits.FollowersAreLost`);
- a staged batch can get downstream exactly if it is found whole, and in neither it nor an entry in front of
  it the scan finds nothing, or a path that leads upward (`Backlog.StagedCanBeDeliveredIff`);
- a second post verifies the same file if a segment is posted twice (`Completion.SecondWinnerIff`);
- a post can wait for room in the connection pool that never comes (`KcpPool.FinishesUnaidedIff`), which
  can happen if -threads is at least 2 (`KcpPool.JamReachableIff`);
- deduplication with overlapping arguments can turn a file into a link to itself
  (`Dedup.ContentKeptIff`).

## Model

| member | source | states |
|---|---|---|
| `Wire.DatagramRoundTrip` | src/lib-udp.go:65-77 | the receiver reads from header and payload the header and payload the sender wrote, in 34 bytes, for every header |
| `Wire.HeaderRoundTrip` | src/ff-udp-to-http.go:240-244 | every 34 bytes are the encoding of exactly the header they decode to |
| `Wire.HeaderLayout` | src/lib-udp.go:65-77 | where each byte of the header stands: the id, then size, offset and chunk size, each with its most significant byte first |
| `Fragments.CondenseKeeps` | src/vendor/github.com/pschou/go-memdiskbuf/writeatbuf.go:238-271 | `condense` covers what the list covered and at most single bytes between two fragments besides; afterwards no two fragments are near each other and a fragment comes first |
| `Fragments.AddKeeps` | src/vendor/github.com/pschou/go-memdiskbuf/writeatbuf.go:215-235 | `add`, from any tidy list of any capacity, covers the old fragments and the new one, and nothing else but single bytes between fragments |
| `Fragments.CondenseOrders` | src/vendor/github.com/pschou/go-memdiskbuf/writeatbuf.go:238-271 | `condense` leaves the fragments in the order of their starts |
| `Fragments.CondenseFreesIff` | src/vendor/github.com/pschou/go-memdiskbuf/writeatbuf.go:238-271 | on a full list it frees no slot, and leaves the same fragments sorted, exactly if no two of them are near |
| `Fragments.FreeNeedNotBeLast` | src/vendor/github.com/pschou/go-memdiskbuf/writeatbuf.go:238-271 | the slots it frees need not be the last: a list that has one in the middle |
| `Fragments.AddOrders` | src/vendor/github.com/pschou/go-memdiskbuf/writeatbuf.go:215-235 | the order of the list after `add`: an append with room leaves the old part condensed, in the order of its starts with no two fragments near; one that moves the list leaves the old part as it was; a joined list is condensed as a whole |
| `Fragments.CapacityDoubles` | src/vendor/github.com/pschou/go-memdiskbuf/writeatbuf.go:231 | up to 384 slots the capacity is the first of 3, 6, 12, ... that is large enough |
| `BufferedFile.CondenseList` | src/vendor/github.com/pschou/go-memdiskbuf/writeatbuf.go:238-271 | the two loops, with their early restart, compute `Condense`, and end because each merge leaves a fragment less |
| `BufferedFile.AddTo` | src/vendor/github.com/pschou/go-memdiskbuf/writeatbuf.go:215-235 | the search for a touching fragment or a free slot computes `Add`, whose coverage is `AddKeeps` and whose order is `AddOrders`: an appended fragment misses this round of condensing, and so does the whole list if the append has to move it |
| `BufferedFile.WriterAtBuf.constructor` | src/vendor/github.com/pschou/go-memdiskbuf/writeatbuf.go:58-65 | a new buffer of 32 MiB of zeros with three free slots |
| `BufferedFile.WriterAtBuf.MoveDown` | src/vendor/github.com/pschou/go-memdiskbuf/writeatbuf.go:133-135 | the copy loop, in place, moves every cell down by a block |
| `BufferedFile.WriterAtBuf.Shift` | src/vendor/github.com/pschou/go-memdiskbuf/writeatbuf.go:117-138 | the loop over full blocks, stream first and then the disk, up to the disk's first error |
| `BufferedFile.WriterAtBuf.PickUp` | src/vendor/github.com/pschou/go-memdiskbuf/writeatbuf.go:96-103 | a write across the window's start, in place: bytes are skipped in the buffer and not in what is written |
| `BufferedFile.WriterAtBuf.Put` | src/vendor/github.com/pschou/go-memdiskbuf/writeatbuf.go:111-113 | a write inside the window, in place: noted in the list, copied into the buffer |
| `BufferedFile.WriterAtBuf.Write` | src/vendor/github.com/pschou/go-memdiskbuf/writeatbuf.go:90-115 | one `WriteAt`, in place: behind the window, across its start, beyond its end or inside |
| `BufferedFile.WriterAtBuf.FlushAll` | src/vendor/github.com/pschou/go-memdiskbuf/writeatbuf.go:153-166 | every fragment at its distance from the window's start gets the beginning of the buffer |
| `BufferedFile.WriterAtBuf.Flush` | src/vendor/github.com/pschou/go-memdiskbuf/writeatbuf.go:171-197 | the first fragment is streamed and written; an error exactly if another one is left |
| `WriteBuffer.BlocksTaken` | src/vendor/github.com/pschou/go-memdiskbuf/writeatbuf.go:90-138 | after a write that appends with room, or does not append, no whole block at the window's start is left in any slot that was there before |
| `WriteBuffer.WriteDone` | src/vendor/github.com/pschou/go-memdiskbuf/writeatbuf.go:90-115 | wherever it begins: a write behind the window does nothing and succeeds, one beyond its end does nothing and fails, and any other that succeeds leaves no whole block at the head of the list |
| `WriteBuffer.OverlapIs` | src/vendor/github.com/pschou/go-memdiskbuf/writeatbuf.go:96-103 | cell by cell, what a write across the window's start leaves: its first bytes, which lie before the window, stand in it at the distance by which they miss it, and the list takes as many bytes from the window's start on for written |
| `WriteBuffer.OverlapRightIff` | src/vendor/github.com/pschou/go-memdiskbuf/writeatbuf.go:96-103 | those bytes are the content's exactly if the cells in front held it already and the content repeats itself at twice the distance |
| `WriteBuffer.ShiftHolds` | src/vendor/github.com/pschou/go-memdiskbuf/writeatbuf.go:117-138 | moving blocks to the file, also when the disk fails in the middle, loses no byte the buffer holds; without an error no full block is left |
| `WriteBuffer.ShiftFails` | src/vendor/github.com/pschou/go-memdiskbuf/writeatbuf.go:117-131 | if the disk fails the file holds what StreamFunc has heard, but for the part of the last block that the disk did not take |
| `WriteBuffer.ShiftLeavesEnd` | src/vendor/github.com/pschou/go-memdiskbuf/writeatbuf.go:133-137 | moving the cells down leaves the last block of the buffer as it was |
| `WriteBuffer.WriteHolds` | src/vendor/github.com/pschou/go-memdiskbuf/writeatbuf.go:90-115 | a write from the window's start on fails exactly if it ends beyond the window, which then changes nothing, or the disk fails; in every other case, and even if the disk fails, file and buffer hold the new bytes and the old |
| `WriteBuffer.WriteHeard` | src/vendor/github.com/pschou/go-memdiskbuf/writeatbuf.go:117-131 | StreamFunc has been called with full blocks of the content from its beginning on, with a block the disk refused among them |
| `WriteBuffer.WriteCounts` | src/vendor/github.com/pschou/go-memdiskbuf/writeatbuf.go:90-138 | both counters of the buffer stay right over every write, wherever it goes |
| `WriteBuffer.FlushErrsIff` | src/vendor/github.com/pschou/go-memdiskbuf/writeatbuf.go:171-197 | exactly when `Flush` reports missing bytes: a gap at the window's start in front of at most one block goes unnoticed |
| `WriteBuffer.FlushComplete` | src/vendor/github.com/pschou/go-memdiskbuf/writeatbuf.go:171-197 | when all bytes are there, `Flush` succeeds, the file is the content, and StreamFunc gets the rest of it |
| `WriteBuffer.FlushStopsShort` | src/vendor/github.com/pschou/go-memdiskbuf/writeatbuf.go:171-197 | a byte that was not passed ends the flushed file before it |
| `WriteBuffer.FlushHasZero` | src/vendor/github.com/pschou/go-memdiskbuf/writeatbuf.go:171-197 | a byte nobody wrote is a zero of the flushed file, if the file gets that far |
| `WriteBuffer.GiveUpKeepsIff` | src/ff-udp-to-http.go:350-352 | truncate, `FlushAll`, truncate leaves the bytes that were written, whatever they are, if and only if nothing is pending, or one fragment at the very beginning of the file |
| `Storage.AcceptKeeps` | src/ff-udp-to-http.go:345-361 | after one chunk more the store holds the old bytes and the new, unless the switch to direct writes spoilt it; the switch happens only if the chunk ends beyond the window or the disk fails |
| `Storage.CompleteContent` | src/ff-udp-to-http.go:139-173 | a store that has every byte and was not spoilt ends as the content |
| `Switching.SwitchKeepsIff` | src/ff-udp-to-http.go:345-361 | for any order of chunks that tile the file, on a disk without errors: the final file is that of direct writes for every content if and only if the buffer was never given up with bytes pending elsewhere than at the beginning of the file |
| `Sender.ChunkIndexRecoveredIff` | src/ff-udp-to-http.go:338 | `(k*m+1)/m` is k exactly for chunk sizes of at least two bytes |
| `Sender.CeilingForms` | src/ff-udp-to-http.go:262 | the receiver's count `(n-1)/m+1` is the rounded-up quotient, and the sender's number of packets is one more exactly when m divides n |
| `Sender.ChunkCounts` | src/ff-http-to-udp.go:288-304 | the packets with data are those with index below the receiver's chunk count; one empty packet more is sent exactly when the chunk size divides the stream |
| `Sender.PassPartitionsStream` | src/ff-http-to-udp.go:288-304 | the chunks of one pass, in order, are the stream |
| `Sender.PassEndsShort` | src/ff-http-to-udp.go:288-304 | only the last packet of a pass is short, which is where CopyN reports the end |
| `Sender.MtuFieldIsChunkIff` | src/ff-http-to-udp.go:180-192 | the announced MTU, in wrapping 16-bit arithmetic, is the number of bytes copied exactly if that number is a 16-bit value |
| `Sender.PacketPieces` | src/ff-http-to-udp.go:288-304 | one turn of the send loop writes packet k and advances to packet k+1, without wrap of the offset |
| `Sender.UdpSocket.SendPass` | src/ff-http-to-udp.go:286-304 | the loop puts packets 0, 1, ... of the transfer on the wire until the stream ends or the client leaves, and tells which |
| `Sender.UdpSocket.Post` | src/ff-http-to-udp.go:174-347 | the wake-up datagram, one pass, and the pass again, cut short after any packet |
| `Sender.EarlyCloseIsPrefix` | src/ff-http-to-udp.go:288-334 | a client leaving early only removes datagrams from the end of what is sent |
| `Reassembly.WorkUnit.constructor` | src/ff-udp-to-http.go:261-277 | a new job has an empty file and a zero bitmap of the given length |
| `Reassembly.WorkUnit.Write` | src/ff-udp-to-http.go:345-361 | the buffered write and its fallback, in place on the job's own buffer, are `Storage.Accept` |
| `Reassembly.WorkUnit.Receive` | src/ff-udp-to-http.go:343-361 | a new chunk is marked, and written |
| `Reassembly.WorkUnit.Complete` | src/ff-udp-to-http.go:363-369 | done exactly if no byte of the bitmap is zero |
| `Reassembly.Receiver.constructor` | src/ff-udp-to-http.go:215-222 | the receiver starts without job, with the zero UUID and an empty queue |
| `Reassembly.Receiver.OpenJob` | src/ff-udp-to-http.go:246-330 | a new UUID replaces the current job by a fresh one and clears `done`; queued jobs are untouched |
| `Reassembly.Receiver.PlaceChunk` | src/ff-udp-to-http.go:337-378 | a data packet is ignored, or stored and marked once; the job is queued when its bitmap is full |
| `Reassembly.Receiver.Handle` | src/ff-udp-to-http.go:224-379 | one turn of the receive loop is one `Step`; the queue only grows, and queued jobs are not written any more |
| `Reassembly.Receiver.HandleAll` | src/ff-udp-to-http.go:224-379 | the receive loop over any datagrams is `Run` |
| `Datagrams.PanicsIff` | src/ff-udp-to-http.go:235-341 | exactly which datagrams, of any bytes, make `handle` panic: of another id with a size that makes the chunk count negative; or with data, where no job is under its id or the offset makes the index negative |
| `Datagrams.CountNegativeIff` | src/ff-udp-to-http.go:264 | which sizes make the signed chunk count negative: those above 2^63, but for the last two chunk sizes below 2^64 |
| `Datagrams.IndexNegativeIff` | src/ff-udp-to-http.go:338 | which offsets make the signed chunk index negative: those from 2^63 - 1 on, but for the last chunk size below 2^64 |
| `Datagrams.PanicIsTheEnd` | src/ff-udp-to-http.go:215-380 | after a panic nothing is received any more |
| `Datagrams.UnusableIsIgnored` | src/ff-udp-to-http.go:235-244 | a datagram shorter than its header or with a chunk size below 100 changes nothing |
| `Datagrams.BeyondIsIgnored` | src/ff-udp-to-http.go:333-341 | nor does one whose index is beyond the job, or that comes when the job is done |
| `Delivery.EmissionIs` | src/ff-http-to-udp.go:279-346 | everything a transfer puts on the wire, datagram by datagram: the announcement, and twice the stream in pieces, each behind its place, its size and its chunk size |
| `Delivery.PacketShape` | src/ff-http-to-udp.go:288-304 | every datagram of a transfer carries the transfer's id, size and chunk size, and is either empty or exactly one chunk |
| `Delivery.PacketsDiffer` | src/ff-http-to-udp.go:288-304 | no two packets of a pass are the same bytes |
| `Delivery.HeaderArithmetic` | src/ff-udp-to-http.go:338 | the receiver's index of chunk k, in 64-bit arithmetic, is k |
| `Delivery.TotalArithmetic` | src/ff-udp-to-http.go:262 | the receiver's total, in 64-bit arithmetic, is the number of chunks with data |
| `Delivery.WrittenFaithful` | src/ff-udp-to-http.go:343-361 | after a new chunk is stored and marked the bitmap still tells, byte by byte, what file and buffer hold, unless the job is spoilt |
| `Delivery.EmptyStep` | src/ff-udp-to-http.go:246-335 | a datagram without data opens its transfer and changes nothing else |
| `Delivery.ChunkStep` | src/ff-udp-to-http.go:246-378 | a chunk is stored once; duplicates and chunks of a finished transfer change nothing |
| `Delivery.StepKeepsGood` | src/ff-udp-to-http.go:224-379 | the invariant (bitmap implies content unless spoilt, queued jobs complete) survives every datagram of any transfer, across UUID switches, whatever the disk does |
| `Delivery.RunKeepsGood` | src/ff-udp-to-http.go:224-379 | the same over whole runs |
| `Delivery.CompleteJobHoldsStream` | src/ff-udp-to-http.go:363-376 | a full bitmap of a job that was not spoilt means the flushed file is the stream |
| `Delivery.ReassemblySafety` | src/ff-udp-to-http.go:210-380 | for any loss, duplication, reordering and mixing of the datagrams of any transfers and any disk errors, `handle` never panics, and each queued job that the switch to direct writes did not spoil holds exactly the stream sent under its UUID |
| `Delivery.SafeWithinWindow` | src/ff-udp-to-http.go:210-380 | streams of at most 32 MiB and disks without errors: every queued job holds exactly its stream |
| `LossTolerance.TransferProgress` | src/ff-udp-to-http.go:333-377 | while one transfer's datagrams arrive, the bitmap is the set of chunks that arrived, and the job leaves once, when it is full |
| `LossTolerance.CoveredIsGotThrough` | src/ff-http-to-udp.go:288-347 | a chunk arrived exactly if its packet of the first or of the second pass did |
| `LossTolerance.ExactLossTolerance` | src/ff-udp-to-http.go:333-377 | a job is queued if and only if every chunk got through in one of the two passes; once, and nothing else is queued; it holds the exact stream unless spoilt, which takes more than 32 MiB or a disk error |
| `LossTolerance.SurvivorsAreQueued` | src/ff-udp-to-http.go:224-379 | on a lossy port whose transfers follow each other, the jobs queued are exactly the transfers all of whose chunks got through, each once and in order |
| `LossTolerance.FaithfulChannelDeliversAll` | src/ff-udp-to-http.go:224-379 | transfers of any length that follow each other on a lossless, ordered channel are all delivered with their exact streams, once each, in order, if the disk makes no errors |
| `Limits.LargeIsUnsafe` | src/ff-udp-to-http.go:345-361 | a stream of more than 32 MiB with a byte that is not zero behind its first chunk in the window: if the chunk with that byte comes first and one beyond the window second, then whatever comes after them, a wrong file is queued and forwarded, and no checksum is looked at |
| `Limits.SafeSizeIff` | src/ff-udp-to-http.go:345-361 | without disk errors, what is forwarded for FlowFiles of a given size is right for every loss, duplication and reordering if and only if the size is at most 32 MiB; whichever FlowFiles the sender lets through, as long as one of a larger size has a byte that is not zero behind its first chunk in the window |
| `Limits.DeliveredIffBufferFits` | src/ff-udp-to-http.go:51-52 | when every chunk of a stream of at most 32 MiB arrives, whatever its bytes, it is delivered exactly if the receive buffer holds its largest datagram; the one exception is a buffer a single byte short that cuts off nothing but zeros |
| `Limits.BufferMustFitIff` | src/ff-udp-to-http.go:51-52 | FlowFiles of a size and chunk size are always delivered if and only if the receive buffer holds their datagrams; whichever FlowFiles the sender lets through, as long as a buffer that is too short cuts more than zeros off one of them |
| `Limits.PostCanSend` | src/ff-http-to-udp.go:159-277 | with an id and a checksum that the libraries accept, `post` sends a FlowFile of every size from its header on, whose bytes behind the header are not zero |
| `Limits.OnesTell` | src/ff-udp-to-http.go:345-361 | such a FlowFile of more than 32 MiB is one on which `SafeSizeIff` turns |
| `Limits.OnesAreCut` | src/ff-udp-to-http.go:51-52 | such a FlowFile, if its header is shorter than a chunk or a chunk of payload follows it, is one on which `BufferMustFitIff` turns |
| `Limits.ShortBufferQueuesNothing` | src/ff-udp-to-http.go:242-335 | with a buffer of at most 34 bytes nothing is ever queued |
| `Limits.FirstChunkPanicsIff` | src/ff-udp-to-http.go:215-247 | the first data chunk panics a fresh receiver exactly if its UUID is the all-zero one |
| `FlowFile.EncodedParts` | src/vendor/github.com/pschou/go-flowfile/attributes.go:100-107 | `HeaderSize` is where the payload of an encoded FlowFile begins, behind attributes and length; with the payload's length it is the size announced to the receiver (src/ff-http-to-udp.go:178) |
| `FlowFile.FieldsPrefix` | src/vendor/github.com/pschou/go-flowfile/attributes.go:142-161 | names and values cut off after any byte: they are all read if no more is missing than all but one byte of the last value, and right only if nothing is missing |
| `FlowFile.PrefixRead` | src/vendor/github.com/pschou/go-flowfile/attributes.go:127-167 | the parser on the first c bytes of a FlowFile: another file for one to six bytes, and attributes as soon as no more is missing than all but one byte of the last value, which then has zeros for what is missing |
| `FlowFile.OneAttribute` | src/vendor/github.com/pschou/go-flowfile/attributes.go:256-287 | the bytes of a FlowFile with one attribute, spelled out |
| `FlowFile.WrittenCut` | src/vendor/github.com/pschou/go-flowfile/attributes.go:256-287 | attributes of any number and length are written as what is left of them, cut to 16 bits, and unchanged if they fit |
| `FlowFile.AnnouncedSizeIff` | src/ff-http-to-udp.go:178 | the size announced for a FlowFile is the length of its encoding exactly if its attributes fit their 16-bit lengths; otherwise it is too large |
| `FlowFile.ReadBack` | src/vendor/github.com/pschou/go-flowfile/attributes.go:127-167 | whatever the attributes, what is left of them is read back, and the payload is found behind them |
| `FlowFile.OtherStreams` | src/vendor/github.com/pschou/go-flowfile/attributes.go:127-141 | of other streams, nothing and the end mark read as the end, and all others as no FlowFile |
| `FlowFile.GetIsFirst` | src/vendor/github.com/pschou/go-flowfile/attributes.go:53-60 | `Get` finds the first attribute with the name |
| `StreamChecksum.StreamFunc.constructor` | src/ff-udp-to-http.go:284-287 | no header buffered, nothing parsed, no hash |
| `StreamChecksum.StreamFunc.Start` | src/ff-udp-to-http.go:298-316 | once the attributes and eight bytes behind the header are in, those eight bytes become the size and the hash gets everything behind the header |
| `StreamChecksum.StreamFunc.Call` | src/ff-udp-to-http.go:288-323 | one call of the closure is one `Feed` of the captured variables; a failed parse clears the attributes |
| `StreamChecksum.StreamFunc.CallAll` | src/ff-udp-to-http.go:288-323 | any sequence of calls is `FeedAll` |
| `StreamChecksum.CutDecides` | src/ff-udp-to-http.go:288-323 | whatever pieces a FlowFile comes in, the closure's state depends only on how much has come and on whether a piece ended where it gives up: before the seventh byte, or beyond 64 KiB without the attributes |
| `StreamChecksum.HashInputIsPayload` | src/ff-udp-to-http.go:288-323 | for every cut, a hash once started has been given exactly the payload so far |
| `StreamChecksum.HashedIff` | src/ff-udp-to-http.go:288-323 | a whole FlowFile is hashed as it comes if and only if its attributes ask for it, its payload has eight bytes, and no piece ends where the closure gives up |
| `StreamChecksum.NoCutIndependence` | src/ff-udp-to-http.go:297-321 | no FlowFile is hashed for every cut: a first piece of three bytes loses the hash |
| `StreamChecksum.BlocksSurviveIff` | src/vendor/github.com/pschou/go-memdiskbuf/writeatbuf.go:117-123 | in the buffer's blocks of 4 KiB no piece ends badly exactly if there are fewer than 17, or the attributes end in the first 17 |
| `StreamChecksum.LastPieceSurvivesIff` | src/vendor/github.com/pschou/go-memdiskbuf/writeatbuf.go:171-178 | the same with the shorter piece that `Flush` adds |
| `Verification.Check` | src/ff-udp-to-http.go:135-174 | the worker's branches on size, buffer, hash and attributes, in place on the job, are `DoWork` |
| `Verification.CheckFile` | src/ff-udp-to-http.go:147-161 | without a hash from the stream the whole file is hashed, with the attributes read from it if none are known |
| `Verification.LateFlush` | src/ff-udp-to-http.go:172-174 | flushing a buffer that was given up earlier changes nothing in a complete file |
| `Verification.WorkerVerdict` | src/ff-udp-to-http.go:135-182 | for a complete job that was not spoilt the forwarded file is the stream, and the verdict is a function of the stream, of the number of blocks streamed and of whether the buffer was given up |
| `Verification.FailedFlush` | src/ff-udp-to-http.go:139-173 | the disk refuses the last flush of a complete job: the file ends with the last full block, is checked without its end although the hash had the whole payload, and is forwarded without its end if it is not checked at all |
| `Verification.FailedLateFlush` | src/ff-udp-to-http.go:135-174 | after the switch to direct writes a failed last flush makes no difference |
| `Verification.SpoiltVerdict` | src/ff-udp-to-http.go:147-161 | a spoilt file is checked against the attributes that came with the stream |
| `Verification.UncheckedIff` | src/ff-udp-to-http.go:136-174 | a job that came whole through its buffer is forwarded unchecked exactly if its payload has fewer than eight bytes, or begins with eight zeros, or its ninth byte is not in a full block, or the attributes end too late |
| `Verification.ChecksDiffer` | src/ff-udp-to-http.go:135-161 | the check through the buffer hashes the payload, the check of the file hashes the header, too; they never read the same bytes |
| `Verification.NothingStreamed` | src/ff-udp-to-http.go:136-174 | a job whose buffer streamed no block is forwarded unchecked, whatever is in its file |
| `Verification.ForwardedOnceIff` | src/ff-udp-to-http.go:179-199 | the worker's scan of its file sends on the FlowFile and then whatever its payload reads as: the FlowFile alone exactly if its payload does not begin like one |
| `Verification.ForwardedCorrect` | src/ff-udp-to-http.go:135-380 | from the socket to the worker, whatever network and disks do: each queued job that was not spoilt is forwarded as the FlowFile sent under its UUID, with the verdict that FlowFile deserves; followed by what its payload reads as, and by nothing exactly if that does not begin like a FlowFile |
| `Ports.AddRange` | src/lib-udp.go:31-33 | adds exactly the ports from start to end, none when they are reversed |
| `Ports.Listed` | src/lib-udp.go:39-46 | lists every port of the set once, or fails if one is outside 1025..65535 |
| `Ports.HypenRange` | src/lib-udp.go:14-47 | a duplicate-free list of the union of the given ports and ranges; fatal exactly on malformed items or ports outside 1025..65535 |
| `Ports.AtoiIff` | src/lib-udp.go:20-30 | `strconv.Atoi` reads exactly the signed decimal numbers that 64 bits can hold |
| `Ports.ItemIff` | src/lib-udp.go:17-37 | an item of a specification is one number, or two with a dash between them; anything else is fatal |
| `Ports.SpecificationRoundTrip` | src/lib-udp.go:14-38 | a written-out list of ports and ranges is read as the union of these ranges |
| `Ports.PairUp` | src/ff-http-to-udp.go:386-425 | matches two duplicate-free lists one-to-one, using every port, exactly if the system refuses none of them |
| `Ports.SetupUDP` | src/ff-http-to-udp.go:365-427 | succeeds exactly for valid specifications of equal size whose ports all resolve and whose sources can be bound, and then pairs source and destination ports one-to-one in whatever order the sets are listed |
| `Ports.PortsNeverInterleave` | src/ff-http-to-udp.go:155-166 | in every run of posts over the worker pool no two hold the same destination port, no worker is lost, and the datagrams on a port come transfer by transfer |
| `Ports.PostServed` | src/ff-http-to-udp.go:155-166 | a post gets the first worker waiting, sends to its port alone, and puts it back behind the others; without a worker it does nothing |
| `Resequencer.NumberReads` | src/ff-socket.go:174-199 | the read loop sends what it reads, numbered from 1 modulo 2^63, until a read fails |
| `Resequencer.PacketsCarryStream` | src/ff-socket.go:174-199 | for every split of the bytes into reads the packets carry all of them in order, and only the last is EOF, if some read failed |
| `Resequencer.LiveSession.WriteOut` | src/ff-socket.go:310 | writes to an open socket append, writes after Close do nothing |
| `Resequencer.LiveSession.Accept` | src/ff-socket.go:291-335 | `post` on a session, with its drain loop, is the function `Post`; the loop ends because each turn empties the buffer by one |
| `Resequencer.SocketEntry.Unknown` | src/ff-socket.go:270-275 | an id that is not in the map |
| `Resequencer.SocketEntry.Handle` | src/ff-socket.go:270-335 | `post` with session lookup: unknown ids are dialled on the forwarding side, where the packet that dials is written like any other (`ResequencerCorrect` from `Start`), and refused on the other |
| `Resequencer.DrainSequence` | src/ff-socket.go:321-334 | the drain loop plays out consecutive packets until the next number is not buffered or EOF was played |
| `Resequencer.EofSequence` | src/ff-socket.go:312-316 | EOF that arrives in its turn is the last packet, so nothing waits behind it |
| `Resequencer.PostSequence` | src/ff-socket.go:291-335 | one arrival, new or duplicate, keeps the session in sequence and exhausted: before EOF the next number is not in the buffer |
| `Resequencer.ResequencerCorrect` | src/ff-socket.go:270-335 | from an id that is not in the map on the side with a target, or a session that is, for every reordering and duplication, at every moment: the bytes written are packets 1..rn, the one that opens the session among them, rn is the longest unbroken run of arrivals, and the socket is closed exactly when all arrived and the last is EOF |
| `Resequencer.CompleteIff` | src/ff-socket.go:309-325 | everything has arrived exactly when rn is the number of packets |
| `Resequencer.ReadsBecomeWrites` | src/ff-socket.go:174-335 | from the reads of one side to the writes of the other, over any reordering and duplication of the numbered packets, the first of which dials: a beginning of the bytes read at every moment, all of them once every packet is in, and the socket closed exactly if every packet is in and a read failed |
| `Resequencer.SecondConnectionIff` | src/ff-socket.go:270-332 | after the stream is complete, late duplicates open a second connection exactly on the forwarding side and if the completing packet was not EOF itself; this connection has been written what the late packets alone amount to |
| `Resequencer.SecondIsCorrect` | src/ff-socket.go:270-335 | once the first session has left the map, the next connection is correct for the packets that arrive from then on, as if they were a stream of their own |
| `Resequencer.ClosedStaysClosed` | src/ff-socket.go:286-335 | whatever comes under whatever number, a closed connection is written nothing more |
| `Progress.ProgressFile.constructor` | src/ff-receiver.go:218-219 | at first there is no progress file |
| `Progress.ProgressFile.UpdateIndexFile` | src/ff-receiver.go:211-274 | one call, in place on the file's bytes, is the function `Updated`, whose bytes `ProgressFileCorrect` fixes |
| `Progress.OverwritesAre` | src/ff-receiver.go:243-254 | the reset and the marking write give the file of the new id with just this segment, or add the segment |
| `Progress.UpdateMarks` | src/ff-receiver.go:211-274 | on a file that represents an id and a set of segments, a call marks its segment, or starts over for another id, and returns true exactly when none is missing |
| `Progress.ProgressFileCorrect` | src/ff-receiver.go:211-274 | over any sequence of calls there is a file exactly if some call was effective; it has twice the id's length and the count as its length, the id in force, a 1 for each segment marked since it took over, a 0 for each other, and zeros to its end; the call returns true if and only if these are all segments |
| `Progress.UpdateKeepsFile` | src/ff-receiver.go:211-274 | any call with any id and count: a file once there keeps its length and what is behind the caller's map, and one that is too short is left as it is |
| `Progress.SingleSegmentNeverCompletes` | src/ff-receiver.go:212-214 | with a count of at most one, no call ever returns true or creates a file |
| `Completion.MarkKeepsSound` | src/ff-receiver.go:114-120 | a mark made after its save keeps every marked segment saved |
| `Completion.WinnersHaveEverything` | src/ff-receiver.go:113-129 | in any interleaving, also with duplicates and competing ids, a post whose mark returned true proceeds after every segment was saved |
| `Completion.ExactlyOneProceeds` | src/ff-receiver.go:113-154 | if no segment is posted twice, at most one post ever proceeds, and one does exactly when every segment has been marked; the progress file tells which are, until that post removes it |
| `Completion.PhasesTell` | src/ff-receiver.go:113-154 | where a post stands tells which of its steps have been taken, and in which order |
| `Completion.FinalStays` | src/ff-receiver.go:113-154 | a post that is over stays so |
| `Completion.FailedSaveIsFinal` | src/ff-receiver.go:114-117 | a post that fails to save its segment marks nothing, whatever is tried afterwards |
| `Completion.SecondWinnerIff` | src/ff-receiver.go:113-154 | two posts can both proceed if and only if every segment is posted and some segment more than once |
| `Scanner.ScanFile` | src/vendor/github.com/pschou/go-flowfile/scanner.go:90-115 | the scan of a file, with its offset: each turn looks for the next FlowFile right behind the header of the last, because neither `ReadAt` nor `Close` moves the offset of the file (file.go:182-183 and 221-222) |
| `Scanner.ScanEncoded` | src/vendor/github.com/pschou/go-flowfile/marshal.go:53-75 | a FlowFile that the library wrote is found with its attributes, its size and its payload, and then whatever its payload and the bytes behind it read as |
| `Scanner.ParseAny` | src/vendor/github.com/pschou/go-flowfile/marshal.go:53-75 | whatever length stands behind the attributes: a FlowFile with fewer bytes has those, and a length of 2^63 or more stands for none |
| `Scanner.FoundOnceIff` | src/vendor/github.com/pschou/go-flowfile/marshal.go:53-75 | a FlowFile in a file of its own is found once exactly if its payload does not begin like a FlowFile |
| `Scanner.OneFull` | src/ff-unstager.go:90-92 | of a batch in one file the FlowFiles up to the first with a payload are found, and then whatever that payload and the bytes behind it read as |
| `Scanner.WholeIff` | src/ff-unstager.go:90-92 | a batch is found as it was written exactly if only its last FlowFile may have a payload, which does not begin like a FlowFile, or if the first payload and what follows it read together as just the FlowFiles that follow |
| `Scanner.TameWholeIff` | src/ff-unstager.go:90-92 | without payloads that begin with an N, a batch is found as it was written exactly if none but its last FlowFile has a payload |
| `Scanner.MimicsBegins` | src/vendor/github.com/pschou/go-flowfile/attributes.go:127-141 | a payload that passes for what follows it begins with the magic, as far as it goes |
| `Scanner.SomeMimic` | src/ff-unstager.go:90-92 | there are such payloads |
| `Staging.StepFaithful` | src/ff-stager.go:85-164 | every statement of a post leaves its files as its position in the program says |
| `Staging.StepSameAt` | src/ff-stager.go:76-80 | a post touches no other post's files |
| `Staging.PostKeepsInvariant` | src/ff-stager.go:85-164 | a step of a post keeps the invariant of the whole directory |
| `Staging.CrashKeepsInvariant` | src/ff-stager.go:85-98 | so does cutting every running post off at any point |
| `Staging.UnstagerKeepsInvariant` | src/ff-unstager.go:52-149 | so does every step of the unstager: listing in order, opening, sending, closing, retrying, giving up, removing; if downstream never declines |
| `Staging.NextKeepsInvariant` | src/ff-stager.go:73-165 | so does every step of anyone |
| `Staging.CommitProtocolScans` | src/ff-stager.go:85-165 | in every reachable state of every interleaving with crashes, whatever is posted: each .json lists, entry by entry, the attributes and the payload sizes of the FlowFiles posted, and has its .dat with exactly these in order; an acknowledged batch is staged, or what the scan finds of it was accepted downstream; nothing else is accepted |
| `Staging.DeliveredIff` | src/ff-unstager.go:89-131 | what was accepted of a batch is what the scan finds of it: the batch as it was posted exactly if it was sent out and is found whole |
| `Staging.CommitProtocolSafe` | src/ff-stager.go:85-165 | if every batch posted is found whole, or never got past, then in every reachable state of every interleaving with crashes each .json lists, entry by entry, the attributes and the payload sizes of the FlowFiles posted, and has its .dat with exactly these in order; an acknowledged batch is staged, or was accepted downstream as it was posted; nothing else is accepted |
| `Staging.CutOffIsNeverListed` | src/ff-stager.go:85-98 | a batch cut off by a crash before its rename is never listed or acknowledged, whatever happens afterwards, and its .inprogress file stays |
| `Paths.PartsAre` | src/ff-unstager.go:99 | a path is cut at every slash and nowhere else |
| `Paths.CleanedIs` | src/ff-unstager.go:99 | what `filepath.Clean` leaves of a relative path: as many entries as its names and two dots come to, and which entry stands where |
| `Paths.UpwardIff` | src/ff-unstager.go:99-105 | exactly which paths are refused: relative ones that lead above their start on the way, and those whose first entry, once names and two dots have cancelled, begins with two dots |
| `StagingLimits.ScriptRmLosesData` | src/ff-stager.go:135-154 | with -script and -rm a run commits a batch whose data is gone |
| `StagingLimits.FailedRemovalLeavesListing` | src/ff-unstager.go:83-87 | if the .json of a delivered batch cannot be removed a run leaves it without its .dat |
| `StagingLimits.DeclinedIsLost` | src/vendor/github.com/pschou/go-flowfile/sender.go:389-415 | `Close` returns no error for an answer other than 200: an acknowledged batch of one FlowFile is removed and was never accepted |
| `StagingLimits.NotKeptIsLost` | src/ff-unstager.go:89-131 | every batch that is not found whole, and not stopped by an upward path or an empty scan, is acknowledged and removed in some run with only what the scan finds accepted |
| `StagingLimits.FollowersAreLost` | src/ff-unstager.go:89-131 | a batch whose first payload is followed by other FlowFiles and does not begin with an N: in some run it is acknowledged, and removed with only the FlowFiles up to that payload accepted |
| `StagingLimits.KeptIff` | src/ff-unstager.go:89-131 | batches without upward paths and without payloads that begin with an N are kept exactly if none but their last FlowFile has a payload |
| `StagingLimits.CommitProtocolSafeIff` | src/ff-unstager.go:78-131 | for any class of batches: the protocol is safe in all runs that post them exactly if the script's removal is off, removing a .json does not fail, downstream never answers with a status other than 200, and each batch of the class is found whole or never got past |
| `Backlog.CanBeSentOutIff` | src/ff-unstager.go:52-149 | from every reachable state what the scan finds of a staged batch can still be sent out if and only if it was already, or the scan of neither it nor an entry in front of it is empty or finds a path that leads upward, in the directory or in the list the unstager is working on |
| `Backlog.StagedCanBeDeliveredIff` | src/ff-unstager.go:52-149 | from every reachable state a staged batch can still get downstream as it was posted if and only if it is found whole and can be sent out |
| `Backlog.IdleCanDeliverIff` | src/ff-unstager.go:52-149 | between two turns of the loop the entries with smaller names decide |
| `Backlog.RunGainsNothing` | src/ff-unstager.go:52-149 | no step of anyone, crashes and restarts included, makes an undeliverable batch deliverable |
| `Backlog.EmptyBatchBlocks` | src/vendor/github.com/pschou/go-flowfile/maxLatencyWriter.go:40-47 | a request without FlowFiles is never closed: nothing but the end of the process moves the unstager on |
| `StagingArea.Directory.constructor` | src/ff-stager.go:73-80 | an unused directory is the initial state |
| `StagingArea.Directory.CreateData` | src/ff-stager.go:100-103 | creating the .dat file is the protocol's first step, or fails |
| `StagingArea.Directory.CreateListing` | src/ff-stager.go:105-107 | likewise for the .inprogress file |
| `StagingArea.Directory.Store` | src/ff-stager.go:122-124 | writing one FlowFile is one step; a failed write may leave a torn file |
| `StagingArea.Directory.Reject` | src/ff-stager.go:126-133 | a FlowFile that does not verify ends in failure, with -rm-partial after both removals |
| `StagingArea.Directory.Keep` | src/ff-stager.go:135-157 | a FlowFile that verifies is noted, after the script and its removals |
| `StagingArea.Directory.ReceiveFile` | src/ff-stager.go:110-158 | the body of the scan loop: stored, verified and noted, or failed |
| `StagingArea.Directory.EncodeListing` | src/ff-stager.go:160-163 | writing the listing completes the .inprogress file, or fails |
| `StagingArea.Directory.ReceiveNext` | src/ff-stager.go:110-158 | one turn of the scan loop: the FlowFile is in the .dat, and its attributes and payload size are noted; or what is in the .dat when writing or checking it fails |
| `StagingArea.Directory.ReceiveFiles` | src/ff-stager.go:109-158 | the scan loop stores and checks every FlowFile in order and notes the attributes and the payload size of each; or stops at the first failure, with what was written before it left behind |
| `StagingArea.Directory.WriteListing` | src/ff-stager.go:160-163 | the listing is written with what was noted, or fails |
| `StagingArea.Directory.ReceiveBatch` | src/ff-stager.go:109-163 | scan loop and listing, and which call failed first |
| `StagingArea.Directory.Receive` | src/ff-stager.go:100-164 | a post up to its deferred function reaches the commit or failure, as `err` tells |
| `StagingArea.Directory.Commit` | src/ff-stager.go:92-93 | the rename turns .inprogress into .json |
| `StagingArea.Directory.Answer` | src/ff-stager.go:85-98 | commits and answers 200 exactly if there was no error |
| `StagingArea.Directory.Serve` | src/ff-stager.go:73-165 | a post with the first call that fails, and what it leaves behind then |
| `StagingArea.Directory.Post` | src/ff-stager.go:73-165 | a whole post answers 200 exactly if every call and check succeeds, with its batch completely staged and listed, entry by entry, with the attributes and payload sizes posted; otherwise the directory lists nothing of it, and holds what was written before the first failure |
| `StagingArea.Directory.OpenData` | src/ff-unstager.go:73-92 | an entry that can be opened yields what the scan of its .dat finds |
| `StagingArea.Directory.SendOne` | src/ff-unstager.go:93-121 | one FlowFile more is written upstream, or the attempt fails, as it does for a path that leads upward |
| `StagingArea.Directory.SendAll` | src/ff-unstager.go:91-122 | the scan loop sends every FlowFile found, and ends with an error exactly if one of them leads upward or a write fails |
| `StagingArea.Directory.CloseUp` | src/ff-unstager.go:123-125 | closing fails exactly with the connection; exactly what is accepted downstream by it, which without an error is the request, provided downstream does not decline |
| `StagingArea.Directory.RemoveListing` | src/ff-unstager.go:83-85 | after success the .json goes first |
| `StagingArea.Directory.RemoveData` | src/ff-unstager.go:86 | and then the .dat, and with it the entry is done |
| `StagingArea.Directory.ProcessFile` | src/ff-unstager.go:67-131 | one attempt fails and leaves the entry, or has it removed and, if nothing declines, what the scan found of it accepted; it hangs only where the scan finds nothing, and such an entry is never removed |
| `StagingArea.Directory.Wait` | src/ff-unstager.go:136-143 | after a failure another attempt follows a handshake, or the retries are used up |
| `StagingArea.Directory.TryAgain` | src/ff-unstager.go:136-146 | one turn of the retry loop: no attempt without a handshake |
| `StagingArea.Directory.ProcessEntry` | src/ff-unstager.go:133-147 | an entry is removed and, if nothing declines, what the scan found of it accepted; or the process ends, or hangs |
| `StagingArea.Directory.ReadDir` | src/ff-unstager.go:53-65 | a turn works on the .json files the directory shows, in the order of their names |
| `StagingArea.Directory.UnstageDirectory` | src/ff-unstager.go:52-149 | a turn that ends has every entry it listed gone from the directory with what the scan finds of it accepted downstream, if nothing declines, which is the batch as posted exactly if it is found whole; a turn that hangs has an entry in its list in which the scan finds nothing |
| `KcpPool.MoveKeepsOnePlace` | src/ff-http-to-kcp.go:60-95 | taking, giving back, dropping and issuing keep each item in exactly one place |
| `KcpPool.ConnStep` | src/ff-http-to-kcp.go:172-198 | every step moves at most one connection, from one place to another |
| `KcpPool.TokenStep` | src/ff-http-to-kcp.go:180-182 | every step moves at most one worker token, between channel and post |
| `KcpPool.PoolExclusive` | src/ff-http-to-kcp.go:60-95 | in every run each token is free or with one post, and each connection is in the pool once, with one post or the refill loop, or closed: none lost, shared or reused |
| `KcpPool.EmptyPoolRefills` | src/ff-http-to-kcp.go:83-92 | an empty pool always satisfies the guard of the refill loop |
| `KcpPool.ReleaseNeverBlocks` | src/ff-http-to-kcp.go:181-182 | the token channel has room for a token brought back |
| `KcpPool.FinishesUnaidedIff` | src/ff-http-to-kcp.go:172-198 | in every reachable state a post can end without newcomers exactly if it is not sending to a full pool that nobody takes from |
| `KcpPool.EveryPostCanFinish` | src/ff-http-to-kcp.go:172-198 | with newcomers every post can end, in every reachable state |
| `KcpPool.ServesIff` | src/ff-http-to-kcp.go:60-95 | some post can end exactly if -threads is positive |
| `KcpPool.JamReachableIff` | src/ff-http-to-kcp.go:191-193 | the state in which a post waits for room for good is reachable exactly if -threads is at least 2 |
| `KcpPool.PoolBound` | src/ff-http-to-kcp.go:83-92 | with each length check and its send in one step the pool holds at most threads+1 connections and no send waits |
| `KcpSender.Proxy.constructor` | src/ff-http-to-kcp.go:60-77 | the set-up loop leaves one connection and one token per thread, each once |
| `KcpSender.Proxy.Refill` | src/ff-http-to-kcp.go:83-92 | one round of the refill loop adds new connections until more than threads connections and tokens wait or a dial fails, and never blocks |
| `KcpSender.Proxy.Acquire` | src/ff-http-to-kcp.go:172-178 | takes connections in order until one answers its ping |
| `KcpSender.Proxy.SendOrClose` | src/ff-http-to-kcp.go:191-195 | the connection goes back exactly if fewer than threads-1 wait |
| `KcpSender.Proxy.Release` | src/ff-http-to-kcp.go:181-198 | the token comes back first, then the connection is kept or closed |
| `KcpSender.Proxy.Post` | src/ff-http-to-kcp.go:172-198 | a post alone ends exactly if some connection answers and a token is free; then pool and tokens are as stated, in order |
| `Dedup.KeyIsExact` | src/ff-sender.go:100 | two keys agree exactly if checksum type, checksum and size agree |
| `Dedup.Split` | src/ff-sender.go:102 | the directory part with its slash |
| `Dedup.SeenIsFirst` | src/ff-sender.go:101-112 | seenChecksums holds, for each key met so far, the path of the first file with it |
| `Dedup.LinkOrNote` | src/ff-sender.go:99-113 | the body of the loop turns a file into a link of size 0 to the first file with its content, or notes it |
| `Dedup.Deduplicate` | src/ff-sender.go:94-113 | the loop, in place, does so for every file, over the whole list |
| `Dedup.LinksReachContent` | src/ff-sender.go:101-112 | a link is made exactly if an earlier file has the same content and can be named; it names the first such file, which is itself sent unchanged, so links never chain; it has size 0, and keeps its path, its checksum and the type of it |
| `Dedup.EachContentOnce` | src/ff-sender.go:101-112 | if Rel never fails each content is sent exactly once, and at most one file of a content is sent with a size |
| `Dedup.BytesSent` | src/ff-sender.go:101-112 | then the sizes sent come to the sizes of the distinct contents |
| `Dedup.CreateReadsIff` | src/vendor/github.com/pschou/go-flowfile/save.go:90-104 | content that arrives is what is then read at its path, exactly unless a link there leads to itself; nothing but the file it is written to changes |
| `Dedup.ContentStays` | src/ff-receiver.go:180-197 | content once received at its path survives all later deliveries |
| `Dedup.ContentKeptIff` | src/ff-sender.go:99-113 | in every order of deliveries reading each path, through its link if it has one, gives its original content, exactly if no file that is the first with its content is listed twice; the receiver's `os.Create` follows links (src/vendor/github.com/pschou/go-flowfile/save.go:96) |

## Left out

Assumptions of the UDP model:

- UUIDs of different transfers differ and are not all zero; the all-zero case is `Limits.FirstChunkPanicsIff`.
- The announced size is the length of the encoded stream, as `FlowFile.EncodedParts` has it. `-add-checksum` changes the attributes after the header is built, so it is not part of this model.
- Sizes are below 2^63, the chunk size is at least 100, which the receiver demands, and both passes encode the same bytes.
- A datagram shorter than its header is dropped whatever an earlier datagram left in the buffer, so that the receiver decodes stale bytes in this case is not modelled.
- Storage.Accept: the errors of `Truncate`, `FlushAll` and the direct `WriteAt`, which lines 350-352 and 360 of src/ff-udp-to-http.go do not look at, are taken not to happen; on a full disk a chunk is marked as seen that was never stored. Errors of the buffer's own writes are modelled.
- `spoiled` is no variable of the program: it records that the buffer was given up with bytes pending that `FlushAll` misplaces. `WriteBuffer.GiveUpKeepsIff` and `Limits.SafeSizeIff` say when, in terms a caller can check.
- Fragments.Add: capacities follow the rule by which Go's `append` makes a slice grow, without the rounding that the allocator adds beyond 672 elements; `Fragments.AddKeeps` holds for every capacity.
- Limits.SafeSizeIff: of streams beyond 32 MiB whose bytes behind the first chunk are zeros up to the window's end it says nothing; nor `Limits.BufferMustFitIff` of FlowFiles that lose only single zeros.
- Switching.SwitchKeepsIff: for disks without errors and chunks of which only the last may be a single byte; disk errors are in `Storage.AcceptKeeps` and `WriteBuffer.GiveUpKeepsIff`.
- Limits.DeliveredIffBufferFits: one family is excepted, a receive buffer that is a single byte short where every byte it cuts off is a zero; there the order of arrival decides, because `condense` takes single bytes between fragments for written.
- WriteBuffer.GiveUpKeepsIff: for buffers whose file ends where the window starts, or whose last write the disk refused, as all are that are given up.
- Datagrams.PanicsIff: memory is taken to suffice; a chunk count beyond what `make` accepts panics, too.
- Failing to write to a socket, throttling, sleeps and deadlines; a client that leaves early stops the sender after any packet.
- `csum`, which nothing calls.

Assumptions of the other models:

- `Delivery`, `Verification`, `Scanner`: names, values and their number fit their 16-bit lengths. The writer cuts them otherwise, and the announced size is then too large; `FlowFile.WrittenCut`, `FlowFile.AnnouncedSizeIff` and `FlowFile.ReadBack` say what comes of it.
- `StreamChecksum`, `Verification`: which attributes ask for a checksum that can be computed is a parameter, and a checksum is the bytes it is computed over; computing and comparing it is not part of this model. A disk error in the last flush leaves the file as it is, and nothing of its last block.
- `Staging`, `Verification`: what is accepted or forwarded is compared without the link that `updateChain` adds to the custody chain and without the checksum that `Write` adds to a FlowFile that has none. A FlowFile that is found in a payload and cut off by the end of the file is sent as it is, as `io.Copy` does not notice.
- `Scanner`: the theorems about batches require `AllStorable`, the scan itself does not.
- `Resequencer`: one direction, each post on a session atomic; a read that fails on the local side deletes the session there and is not followed further. Unlocked races on `rn` and packets with a `socketN` that is no number are not part of this model.
- `Staging`: post ids are new for every post; renames succeed; an error of the FlowFile scanner counts as the end of the batch for neither side, since neither turns it into a failure; closing a file does not lose data, and a crash does not either. A `.dat` that ends in the middle of a FlowFile is never listed, so its end is never scanned.
- `Staging`: a crash cuts off all posts of the stager at once, or the unstager; stager and unstager do not tell each other of it.
- `StagingArea`: one process runs at a time. Interleavings are the business of `Staging`, whose runs these are.
- `Progress`: ids on a path have one length and the number of segments is fixed, otherwise the map of one id overlaps the name of another; reads and writes of the file itself do not fail.
- `Completion`: each step (save, mark, verify, remove) is atomic; the mark is inside the mutex. `ExactlyOneProceeds` and `SecondWinnerIff` are about the posts of one file.
- `KcpPool.PoolBound`: with checks and sends as separate steps, as in the program, only the capacities of the channels bound the pool; this is part of `KcpPool.PoolExclusive`.
- `KcpSender`: set-up ends the program if a dial fails, and one process runs at a time, as in `StagingArea`.
- `Ports.SetupUDP`: what the system answers for a port is a parameter, and so is that addresses split into host and ports.
- `Dedup`: `filepath.Rel` inverts `path.Join` on the paths given; the attributes are printable, so that quoting them escapes no more than quotes and backslashes; files are found on disk and are no links yet; a path listed twice has not changed in between; targets pass the receiver's test for relative links.
- `Dedup`: cutting content into segments after the loop is not part of this model.

Not modelled at all:

- HTTP, TLS, flags, logging, metrics, custody chains, the watchdog and the init scripts: plumbing.
- kcp-go and iothrottler, and what of go-flowfile and memdiskbuf the protocols above do not depend on.
- ff-diode, ff-flood, ff-sink, ff-kcp-to-http and the remaining lib files: wrappers that would add easy members.
- The receiver's path cleaning.
