# A verified model of the Redis-protocol front end

The repository is a key-value server: poll threads read commands from their
clients, an LSM storage engine completes the requests they make, completion
threads hand finished requests to reply threads over lock-free rings, and the
reply threads answer. This project models its concurrent and its algorithmic
core in Dafny and proves, over all inputs and all interleavings, what that code
is for, or exactly when it holds.

## What is modelled

| files | part of the server |
|---|---|
| `Residues.dfy`, `MpmcProtocol.dfy`, `MpmcTheorems.dfy`, `MpmcRing.dfy`, `MpmcWords.dfy` | the bounded multi-producer multi-consumer ring: a step system with one step per atomic action, its global invariant, refinement of a bounded FIFO; then the methods themselves with every other thread free to act between any two atomic actions; then a second step system on 64-bit words that simulates the first |
| `MachineWords.dfy` | wrap-around, masks, the power-of-two assertion, the signed difference |
| `SpscRing.dfy` | the single-producer single-consumer ring, protocol and methods on 64-bit words |
| `Bytes.dfy`, `Resp.dfy`, `RespInline.dfy`, `RespRoundTrip.dfy`, `RespErrors.dfy` | the restartable reader of the Redis protocol and of the inline form as functions of the pending bytes; round trips with the printer; which bytes are which error |
| `CommandLoop.dfy`, `ChunkInvariance.dfy`, `BoundedBuffer.dfy` | the command loop and how commands end; which commands are executed, for every way the network splits the stream; what the size of the receive buffer means |
| `SharedOutput.dfy` | the output buffer that the poll thread shares with the reply thread: what is sent and what waits, for every interleaving of the two |
| `ClientReader.dfy`, `ClientOutput.dfy` | the receive buffer, the argument table, the scanning loops, the command loop and the output buffer as they are, in place, with replies falling in between, proved to do what those functions say |
| `Glob.dfy`, `GlobLaws.dfy`, `GlobMatch.dfy`, `PatternLimits.dfy` | what a pattern matches, as a relation and by its text; the glob matcher against that relation; the key range planned for a pattern |
| `Lifecycle.dfy`, `LifecycleTheorems.dfy`, `ClientLifetime.dfy`, `Server.dfy` | requests from allocation to free across all threads: memory, places, replies, DMA tags, and when a client may be freed; and the functions that make the steps |
| `ConnectionTable.dfy` | closing the gaps in the poll tables |
| `PriorityQueue.dfy` | the binary heap |

The state machines use unbounded counters; `MachineWords.dfy`, `MpmcWords.dfy`
and `SpscRing.dfy` show when 64-bit words do the same. Atomic actions are taken
to be sequentially consistent.

## Where the code falls short of what it is for

Each of these is a theorem that says exactly when the code does what it is for.

- The ring's assertion lets size 1 through, and size 1 is unsafe
  (`MpmcTheorems.SafeExactlyFromTwo`). The server uses 4096.
- A read that ends inside the last length line of a command, when the loop gets
  there, makes the reader report a command short of its last argument
  (`RespRoundTrip.ReadCut`, `ChunkInvariance.ChunkInvariant`).
- A command that errs (unknown name, wrong number of arguments) ends the loop:
  complete commands behind it in the same read wait until more bytes come
  (`ChunkInvariance.Pipelined`, `ChunkInvariance.ErrorHoldsBack`).
- A command longer than the receive buffer fills it; the next recv has no room,
  its result looks like end of file, and the connection is closed
  (`BoundedBuffer.RoomExactly`, `BoundedBuffer.LongArgumentStarves`).
- Output is sent only at the end of a read in which some command marks it, or
  along with a reply of the reply thread. Error replies do not mark it: the one
  for a broken protocol is lost with the close, unless a command of the same read
  marks the output or a reply falls between the write and the close
  (`SharedOutput.WaitsExactly`, `SharedOutput.FarewellReachesExactly`). No such
  reply falls for a SET (`Lifecycle.HeldByHandler`).
- The reply of a SET is written after its hand-over, so a SET may be over before
  its client is told, and the two replies to a DEL come in either order
  (`LifecycleTheorems.Replies`).
- A length or a count of one byte that is no digit is taken for zero
  (`RespErrors.EmptyBulk`, `RespErrors.EmptyArray`).
- An inline line whose quoted last word is followed by CR LF gains an empty
  argument (`RespRoundTrip.InlineRoundTrip`).
- A range planned for a prefix that ends in byte 0xFF, with more pattern behind
  it, misses keys; so does one for a prefix with a letter that is compared
  regardless of case (`PatternLimits.CompleteExactly`).
- A DEL frees a DMA tag it never took and is answered twice
  (`LifecycleTheorems.TagsReturnExactly`, `LifecycleTheorems.OneReplyExactly`).
- A client closed while a GET or a DEL of it is under way may be touched after it
  has been freed (`ClientLifetime.ClosingSafeExactly`).
- One sweep of the poll tables leaves the second of two neighbouring closed
  entries behind (`ConnectionTable.SweepRemovesAll`).
- A pop of the priority queue may leave it out of order
  (`PriorityQueue.PopKeepsOrder`).

Where comments and code disagree, the code is followed: `atop` (util.cc:90) is
said to return -1 only for what is no number, but it returns 0 for the empty
string, wraps for numbers an int cannot hold, and so returns -1 for 4294967295; a
GET is answered with 8192 zero bytes and not with the value read
(poll_server.cpp:70, 118).

## Model

| member | source | states |
|---|---|---|
| `MpmcProtocol.InitInv` | lfmpmc.h:41-56 | The constructor leaves an empty ring: stamp i in slot i, both counters zero, and that state satisfies the global invariant |
| `MpmcProtocol.Run` | lfmpmc.h:63-179 | A schedule of any threads, one atomic action at a time and with spurious exchange failures, never changes the ring size or breaks the shape of the state |
| `MpmcProtocol.StampAt` | lfmpmc.h:73-77 | What a local ticket may conclude from one stamp load: a ticket behind the real counter never sees a stamp that is older than itself; at the real head the stamp is the ticket itself or one of the previous lap; at the real tail a newer stamp means published |
| `MpmcProtocol.EnqCasInv` | lfmpmc.h:82 | Winning or losing the exchange on the head, spuriously or not, keeps the invariant of all threads and slots |
| `MpmcProtocol.DeqCasInv` | lfmpmc.h:157 | The same for the exchange on the tail |
| `MpmcProtocol.EnqWriteInv` | lfmpmc.h:84 | The plain store of the data by the winner of a ticket keeps the invariant |
| `MpmcProtocol.EnqPublishInv` | lfmpmc.h:86 | The stamp store that publishes a ticket keeps the invariant |
| `MpmcProtocol.DeqTakeInv` | lfmpmc.h:161 | The plain load of the data by the claimant of a ticket keeps the invariant |
| `MpmcProtocol.DeqReleaseInv` | lfmpmc.h:163 | The stamp store that releases a slot to its next lap keeps the invariant |
| `MpmcProtocol.StepInv` | lfmpmc.h:63-179 | Every atomic action of every thread keeps the invariant: tail <= head <= tail + size; each stamp is its ticket p, p + 1 or p + size; each thread is where its program point says |
| `MpmcTheorems.RunInv` | lfmpmc.h:63-179 | The invariant holds in every reachable state of any number of producers and consumers |
| `MpmcTheorems.DeliveryByTicket` | lfmpmc.h:69-98 | In every interleaving the dequeue of ticket p reads exactly the value of the enqueue of ticket p; every claimed ticket has been read or is about to be by its one claimant; nothing is lost or invented |
| `MpmcTheorems.TakenOnce` | lfmpmc.h:157-164 | A data cell is read at most once per ticket, and then the logged value is read |
| `MpmcTheorems.SlotOwnership` | lfmpmc.h:82-86 | Two threads are never between their exchange and their stamp store on the same slot, on whichever side of the ring they are |
| `MpmcTheorems.StepMonotone` | lfmpmc.h:82-86 | Stamps and counters never go down, and the log of enqueues and claims only grows |
| `MpmcTheorems.StepRefinesFifo` | lfmpmc.h:63-179 | Each step is a step of a bounded FIFO of at most size values: a push at the producer exchange, a pop of the oldest at the consumer exchange, nothing otherwise |
| `MpmcTheorems.PushRefines` | lfmpmc.h:82 | A won head exchange appends the producer value to the abstract queue, which had room |
| `MpmcTheorems.PopRefines` | lfmpmc.h:157 | A won tail exchange removes the front of the abstract queue |
| `MpmcTheorems.EmptyIsHonest` | lfmpmc.h:167-169 | A dequeue returns false if and only if at its stamp load its ticket was the real tail and that ticket was unclaimed or still being written |
| `MpmcTheorems.FullIsHonest` | lfmpmc.h:90-92 | An enqueue returns false if and only if at its stamp load its ticket was the real head and the previous ticket of the slot was unclaimed or still being read |
| `MpmcTheorems.PreviousLap` | lfmpmc.h:163 | The stamp of the slot of the real head is behind exactly while the ticket one lap earlier has not been released |
| `MpmcTheorems.RetryMeansProgress` | lfmpmc.h:82-97 | A round of a retry loop is repeated, other than by a spurious failure, only when another thread has won the ticket in the meantime: the ring as a whole makes progress |
| `MpmcTheorems.NothingLostAtRest` | lfmpmc.h:84-86 | With no operation half done, the delivered tickets are exactly those below the tail and the slots hold exactly the pending values |
| `MpmcTheorems.SizeOneUnsafe` | lfmpmc.h:49-50 | Size 1 passes the assertion and is unsafe: a schedule in which a dequeuer reads a value of another ticket |
| `MpmcTheorems.SafeExactlyFromTwo` | lfmpmc.h:49-50 | Delivery by ticket holds over all interleavings if and only if the ring has at least two slots |
| `MpmcRing.OthersKeep` | lfmpmc.h:63-179 | Whatever schedule the other threads run, they stay within what a method of the ring assumes of them: invariant, history, and the program point and deeds of the caller |
| `MpmcRing.StepLater` | lfmpmc.h:63-179 | The order "later than" between states is what one step gives: history grows, nothing is taken back |
| `MpmcRing.Ring.constructor` | lfmpmc.h:41-56 | The arrays are the initial state of the step system |
| `MpmcRing.Ring.Enqueue` | lfmpmc.h:63-102 | Under arbitrary interference between any two atomic actions: success puts in exactly one value; false comes with a state that the run of all threads passed during the call and in which there was no free slot; the call keeps trying only while each turn whose exchange is not weak loses its ticket to another thread, so an undisturbed call with a free slot and a turn that is not weak returns true |
| `MpmcRing.Ring.TryEnqueue` | lfmpmc.h:72-97 | One turn of the retry loop, tied step by step to the step system: repeated only if its exchange is weak or its ticket has gone to another thread |
| `MpmcRing.Ring.Dequeue` | lfmpmc.h:140-179 | Success claims one ticket and returns the value logged under it, which nobody had read; false leaves the output alone and comes with a state passed during the call in which nothing was published at the tail; it keeps trying only as an enqueue does |
| `MpmcRing.Ring.TryDequeue` | lfmpmc.h:147-174 | One turn of the retry loop of a dequeue |
| `MpmcRing.Ring.ExchangeHead` | lfmpmc.h:82 | The weak exchange: wins if and only if the head is as expected and it does not fail for no reason; loads the current head on failure, and logs the ticket on success |
| `MpmcRing.Ring.ExchangeTail` | lfmpmc.h:157 | The weak exchange on the tail |
| `MpmcRing.Ring.Produce` | lfmpmc.h:84-87 | Data store then stamp store by the owner of the ticket |
| `MpmcRing.Ring.Consume` | lfmpmc.h:161-164 | Data load then stamp store by the claimant, who gets the logged value |
| `MachineWords.AssertionMeansPow2` | lfmpmc.h:50 | The bit test in both constructors accepts exactly the powers of two |
| `MachineWords.AndNegation` | lfmpmc.h:50 | x & (~x + 1), in words, is the lowest set bit of x |
| `MachineWords.LowestBitTest` | lfmpmc.h:50 | A word equals its lowest set bit exactly if it is a power of two |
| `MachineWords.MaskIsResidue` | lfmpmc.h:72 | Masking a wrapped counter is the counter modulo the size, across any number of 2^64 wraps |
| `MachineWords.WrapKeepsResidue` | lfmpmc.h:72 | A wrap of the counter does not move it to another slot |
| `MachineWords.DifIsReal` | lfmpmc.h:74 | The signed 64-bit difference is the real difference if and only if that lies in [-2^63, 2^63) |
| `MachineWords.SameWord` | lfmpmc.h:82 | Words of counters less than one wrap apart are equal only when the counters are |
| `MpmcWords.EnqueueReadsAlike` | lfmpmc.h:72-74 | On 64-bit words an enqueue picks the same slot and makes the same three-way test as the ideal protocol, while its local ticket lags by less than 2^63 less one lap |
| `MpmcWords.DequeueReadsAlike` | lfmpmc.h:147-149 | The same for a dequeue |
| `MpmcWords.ExchangesAlike` | lfmpmc.h:82 | An exchange on words succeeds exactly when it would on unbounded counters, within one wrap |
| `MpmcWords.StepAlike` | lfmpmc.h:63-179 | Each atomic action in machine arithmetic (masked index, wrapped stamps and counters, signed difference, comparing words) is the word image of the ideal action, while its thread lags by less than half a wrap |
| `MpmcWords.RunAlike` | lfmpmc.h:63-179 | So is every run, across any number of 2^64 wraps, while no thread that moves has slept through half a wrap |
| `MpmcWords.WordsDeliver` | lfmpmc.h:140-179 | In such a run on words, a dequeuer that holds x has claimed a ticket under which an enqueuer brought x |
| `SpscRing.TestsAreCounts` | lockfreeq.h:69-79 | With at most size - 1 elements inside, the masked 64-bit differences are the free room and the element count: the tests mean count < size - 1 and count >= 1 |
| `SpscRing.StepInv` | lockfreeq.h:63-99 | Every index load, slot access and index store of producer or consumer keeps the invariant |
| `SpscRing.WritesFreeSlot` | lockfreeq.h:70 | The producer never writes a slot that holds an unread element |
| `SpscRing.StepRefinesFifo` | lockfreeq.h:63-99 | Each step is a step of a FIFO of capacity size - 1: the head store pushes, the tail store pops the oldest |
| `SpscRing.FifoOverRuns` | lockfreeq.h:63-99 | Over every interleaving the values received followed by the contents are the values sent, in order, and at most size - 1 are inside |
| `SpscRing.RefusalsAreHonest` | lockfreeq.h:69-98 | A refusal happens if and only if the ring was full, or empty, when the index of the other side was loaded |
| `SpscRing.ConsumerStaysWithin` | lockfreeq.h:87-99 | A run of the consumer is within what the producer assumes of it |
| `SpscRing.ProducerStaysWithin` | lockfreeq.h:63-75 | A run of the producer is within what the consumer assumes of it |
| `SpscRing.Ring.constructor` | lockfreeq.h:46-56 | Empty ring on 64-bit words with a guard element |
| `SpscRing.Ring.Enqueue` | lockfreeq.h:63-75 | The call on words: true sends exactly the value as the last one; false if and only if a full ring was seen, at a moment between begin and end of the call |
| `SpscRing.Ring.Dequeue` | lockfreeq.h:87-99 | The call on words: true returns the oldest value; false if and only if an empty ring was seen, at a moment between begin and end of the call |
| `SpscRing.Ring.IsEmpty` | lockfreeq.h:77-85 | The answer is right for the moment the head is loaded, and nothing is consumed |
| `Bytes.AtoiOfDecimal` | client.cc:352-353 | atoi reads back what "%d" printed, for every non-negative int |
| `Resp.Inline` | client.cc:228-291 | The scanner of the inline form: a command uses at least one byte and no more than there are |
| `Resp.Read` | client.cc:293-427 | One reading attempt on the pending bytes: incomplete, an error, or arguments and a positive number of bytes used |
| `Resp.BulkTurn` | client.cc:368-418 | One turn of the bulk loop always makes progress, also when the length line has no LF yet |
| `RespInline.LineReads` | client.cc:228-291 | A printed line in place reads back as its words and uses exactly its bytes, with one stray empty argument after a quoted last word before CR LF |
| `RespInline.LineCut` | client.cc:228-291 | Every proper prefix of a printed line is incomplete |
| `RespRoundTrip.ReadEncoded` | client.cc:88-117 | Reader and printer undo each other on every printable form (array, lone bulk, nil, +OK, +KO, inline line): exactly the arguments, exactly the bytes, whatever follows |
| `RespRoundTrip.MultiReads` | client.cc:343-427 | An array of n >= 1 elements, bulk strings or nils, reads back as n arguments: the byte string, of any content, or NOT for a nil; and uses exactly its bytes |
| `RespRoundTrip.FrontReads` | client.cc:368-418 | The first elements of an array are read one by one, whatever bytes follow them |
| `RespRoundTrip.LoneReads` | client.cc:306-309 | A lone bulk string reads back as BULK and its data |
| `RespRoundTrip.NilReads` | client.cc:388-393 | $-1 reads back as NOT |
| `RespRoundTrip.SimpleReads` | client.cc:310-342 | +OK and +KO lines read back as OK and KO |
| `RespRoundTrip.InlineRoundTrip` | client.cc:228-291 | An inline line reads back as its words if and only if it does not end in a quoted word before CR LF |
| `RespRoundTrip.ReadCut` | client.cc:365-427 | A proper prefix of a printed form is incomplete, except exactly inside its last length line, where a command short of its last argument is reported |
| `RespErrors.DataWithoutEnd` | client.cc:403-408 | A length n, then n bytes not followed by CR LF: invalid bulk data, behind any printed elements of an array or alone, whatever the bytes |
| `RespErrors.NoDollar` | client.cc:372-375 | Another byte where an element should begin: expected a dollar sign, with the byte that was got |
| `RespErrors.LengthWithoutCR` | client.cc:379-383 | A length line that ends in a bare LF: invalid bulk length |
| `RespErrors.BadLength` | client.cc:384-396 | A length line with a number less than -1, or with a zero that is not one byte long: invalid bulk length |
| `RespErrors.NegativeLength` | client.cc:384-396 | So every printed negative length but -1 |
| `RespErrors.WordForLength` | client.cc:384-396 | So every length line that is no number and longer than one byte |
| `RespErrors.HeaderWithoutCR` | client.cc:347-351 | An array header that ends in a bare LF: invalid multibulk length |
| `RespErrors.BadHeader` | client.cc:352-359 | An array header with a negative number, or with a zero that is not one byte long: invalid multibulk length |
| `RespErrors.EmptyArray` | client.cc:352-367 | An empty array is a command without words once a byte follows it; any one byte that counts as zero will do |
| `RespErrors.EmptyBulk` | client.cc:387-413 | A length of one byte that counts as zero, digit or not, announces an empty string |
| `RespErrors.UnknownSimple` | client.cc:310-342 | Behind an unknown simple string: a command without words, or an error, as the unset variable has it |
| `RespErrors.UnknownSimpleArray` | client.cc:310-342 | Or the printed elements that stand there, if the unset variable says how many |
| `RespErrors.QuoteInWord` | client.cc:238-241 | A quote inside a word, behind any finished words: unbalanced quotes |
| `RespErrors.TextBehindQuote` | client.cc:242-252 | A closing quote that no separator follows: unbalanced quotes |
| `RespErrors.OpenQuoteWaits` | client.cc:242-258 | A quote that is not closed waits, over any bytes |
| `CommandLoop.Drain` | client.cc:441-462 | The command loop leaves a suffix of the pending bytes |
| `SharedOutput.NothingLost` | poll_server.cpp:118-122 | In every interleaving of what the poll thread and the reply thread do to the output, the bytes sent followed by the bytes waiting are all that both wrote, in order |
| `SharedOutput.RepliesConserved` | poll_server.cpp:201-256 | Over any run on any bytes, however replies fall in between: of these bytes the poll thread wrote exactly the answers of the commands executed, in order, error replies included, and the farewell to a client that broke the protocol |
| `SharedOutput.DoneAnswers` | client.cc:452-459 | For commands that end fine the poll thread writes what they write, in order, and nothing else |
| `SharedOutput.FaultAnswers` | client.cc:125-130 | For a command that errs, -ERR, a space, the message and CR LF follow what it writes |
| `SharedOutput.WaitsExactly` | poll_server.cpp:249-256 | In every interleaving, what has been sent is all that was written up to the last reply or the last read with a mark, whichever is later; what waits is what was written since, by the poll thread alone |
| `SharedOutput.QuietIsLongest` | poll_server.cpp:118-122 | A reply only shortens what waits: it is the tail end of what would wait without replies |
| `SharedOutput.FarewellReachesExactly` | client.cc:444-449 | The error reply of a read that breaks the protocol reaches the peer before the close, with all before it, exactly if a command executed in the same read marks the output or a reply falls after it was written; otherwise it is lost with all that waited before it |
| `SharedOutput.FarewellLost` | client.cc:444-449 | A first read that breaks the protocol, and no reply: its error reply is written and never sent |
| `SharedOutput.ReplySendsError` | poll_server.cpp:118-122 | A read of a command that writes nothing, like a GET, and of one that errs: the error waits at the end of the read although it is over, and the reply to the first sends it, although no command marked the output |
| `ChunkInvariance.LoopReaches` | client.cc:441-462 | What one run of the loop executes, leaves and reports of a stream cut after any number of bytes, whatever the commands answer, bad cuts included |
| `ChunkInvariance.Pipelined` | client.cc:441-462 | Forms read at once are executed up to the first command that is not done; all of them if and only if no command but the last is other than done |
| `ChunkInvariance.ChunkInvariant` | poll_server.cpp:201-245 | For every stream of encoded commands, every split into reads and every way the commands may end: the commands executed are the first `done` of those sent exactly as long as the loop takes no command cut short for a whole one; the pending bytes are the next of the stream; all were executed exactly if `done` is their number |
| `ChunkInvariance.GoodIsClean` | poll_server.cpp:201-245 | Reads that end in good cuts never mislead the loop, whatever the commands answer; if all are done, these are the only ones |
| `ChunkInvariance.GoodSplit` | poll_server.cpp:201-245 | Any good split executes a front part of what was sent: all of it exactly if nothing is left pending on an open connection, or if the command that closed it was the last |
| `ChunkInvariance.OneReadExecutesLeast` | poll_server.cpp:201-245 | No good split executes less than one single read, none more than was sent, and all execute everything if no command but the last is other than done |
| `ChunkInvariance.DoneStream` | poll_server.cpp:201-245 | For commands that are all done: executed as sent if and only if no boundary between reads falls inside the last length line of a command |
| `ChunkInvariance.ErrorHoldsBack` | client.cc:452-458 | A command that errs holds back the one behind it in the same read; in two reads both are executed |
| `ChunkInvariance.SplitAfterDollar` | client.cc:376-379 | The smallest failing split: right after the last dollar sign |
| `BoundedBuffer.RoomExactly` | poll_server.cpp:205-237 | A stream without a command that closes can be read through the buffer in good cuts if and only if each of its commands fits the buffer, whether they err or not; and if each fits, every reading of any stream in good cuts has room for the next while the connection is open |
| `BoundedBuffer.LongArgumentStarves` | poll_server.cpp:232-237 | A command longer than the buffer fills it at a good cut, with nothing executed |
| `ClientOutput.Output.Write` | client.cc:66-76 | The bytes written follow the bytes already there |
| `ClientOutput.Output.WriteByte` | client.cc:83-86 | One byte more |
| `ClientOutput.Output.WriteBulk` | client.cc:88-111 | Appends the printed bulk string that the reader undoes |
| `ClientOutput.Output.WriteMultibulk` | client.cc:113-117 | Appends the array header that the reader undoes |
| `ClientOutput.Output.WriteError` | client.cc:125-130 | Appends the error line |
| `ClientOutput.Output.Clear` | client.cc:78-81 | Nothing left to send |
| `ClientOutput.Output.FlushOffset` | client.cc:133-174 | For every schedule of positive partial writes the peer gets output[offset..len], each byte once and in order |
| `ClientReader.Client.AppendArg` | client.cc:206-226 | The table keeps its entries, and its capacity doubles exactly when it is full |
| `ClientReader.Client.ParseInline` | client.cc:228-291 | The loops over the buffer do what the specification of the inline form says; failing attempts move nothing |
| `ClientReader.Client.TakeQuoted` | client.cc:238-258 | A quoted word is taken, refused, or awaited |
| `ClientReader.Client.NumberAt` | client.cc:384-386 | The byte overwritten for atoi is restored: the memory is as before |
| `ClientReader.Client.ReadOneBulk` | client.cc:369-417 | One turn of the bulk loop over the buffer |
| `ClientReader.Client.ReadBulks` | client.cc:368-426 | The whole bulk loop over the buffer, including the index update at its end |
| `ClientReader.Client.ReadArray` | client.cc:343-367 | The array header over the buffer |
| `ClientReader.Client.ReadSimple` | client.cc:310-342 | The simple strings over the buffer |
| `ClientReader.Client.ReadCommand` | client.cc:293-427 | One attempt on the real buffer does exactly what Resp.Read says of the pending bytes: success removes exactly the used bytes, incomplete and error change nothing, memory is restored |
| `ClientReader.Client.ExecCommand` | client.cc:452-458 | A command writes its answer and may mark the output, and an error reply follows what it wrote, with replies of the reply thread free to fall before each of these |
| `ClientReader.Client.ExecCommands` | client.cc:441-462 | The loop adds to log and pending bytes exactly what CommandLoop.Drain says, and does to the output exactly the writes and marks of these commands, with replies in between |
| `ClientReader.Client.Receive` | poll_server.cpp:205-239 | recv appends behind the pending bytes |
| `ClientReader.Client.Compact` | poll_server.cpp:242-245 | Moving the pending bytes to the front changes none of them |
| `ClientReader.Client.MakeRoom` | poll_server.cpp:242-245 | Afterwards there is room for 100000 bytes or the pending bytes start at the front |
| `ClientReader.Client.Reply` | poll_server.cpp:118-122 | A reply is written behind what waits, all of it is sent from the start of the buffer, and the buffer is cleared |
| `ClientReader.Client.FlushIfValid` | poll_server.cpp:249-256 | The end of a read: if a command marked the output, all of it is sent and the mark is gone; if not, nothing is; replies may fall before and after |
| `ClientReader.Client.OnRead` | poll_server.cpp:201-263 | One readable event on the real buffers is one delivery of the theorems: commands and pending bytes, and the writes, marks and flush of the poll thread on the output buffer it shares with the reply thread; end of file closes and executes nothing |
| `ClientReader.Client.Serve` | poll_server.cpp:201-263 | A whole run of recv on the bounded buffer, under any schedule and with any replies, is a delivery of the theorems and conserves bytes and replies; it is starved only with a full buffer; a stream without a command that closes, read in good cuts, is read to its end if and only if every command fits the buffer |
| `Glob.MatchesEmpty` | match.cc:143-147 | The empty rest of a string is matched exactly by patterns of stars only |
| `Glob.StarsCollapse` | match.cc:40-43 | A run of stars means what one star means |
| `GlobLaws.ClassIsUnion` | match.cc:72-114 | A class stands for exactly what its members stand for, each in a class of its own |
| `GlobLaws.RangeMatches` | match.cc:85-102 | [x-y] matches exactly the bytes from x to y, both included, in the order of signed chars, the bounds in either order |
| `GlobLaws.FoldedRangeMatches` | match.cc:85-102 | Regardless of case, a range of lower-case letters matches exactly these letters in both cases |
| `GlobLaws.RangeEitherWay` | match.cc:86-98 | Exchanging the bounds of a range changes nothing |
| `GlobLaws.EscapedMatches` | match.cc:74-78 | An escaped byte in a class matches itself only, in both case modes |
| `GlobLaws.SingleMatches` | match.cc:103-110 | A byte in a class matches itself, and regardless of case its other case |
| `GlobLaws.NegationIsOpposite` | match.cc:67-71 | With a caret behind the bracket the answer for every byte is the opposite, whatever the class |
| `GlobLaws.TextMatches` | match.cc:129-139 | Text without special bytes matches exactly itself, or regardless of case its other spellings |
| `GlobLaws.EscapedTextMatches` | match.cc:123-139 | An escaped byte matches itself, special or not |
| `GlobLaws.QuestionMatches` | match.cc:55-60 | A question mark matches exactly the strings of one byte |
| `GlobLaws.StarMatches` | match.cc:39-54 | Text, star, text matches exactly the strings that begin with the one and end with the other without overlap |
| `GlobMatch.StringMatchLen` | match.cc:34-154 | Returns 1 if and only if the declarative relation holds, for every well-formed pattern, with and without case folding, for every non-empty string and for every empty one that is not misread; it terminates |
| `Glob.Members` | match.cc:72-114 | The members of a class end inside the pattern |
| `GlobMatch.ScanClass` | match.cc:72-114 | The class loop finds a hit if and only if some member (byte, escaped byte, or range in either order, folded or not) matches, and stops on the last byte of the class |
| `GlobMatch.StepToken` | match.cc:55-140 | One token that is not a star against one byte: matched if and only if the declarative token matches |
| `GlobMatch.StepClass` | match.cc:61-122 | A class with its negation |
| `GlobMatch.LastStar` | match.cc:40-43 | Dropping all but the last star keeps the answer |
| `GlobMatch.TrySuffixes` | match.cc:46-53 | The backtracking loop finds a match if and only if a star can be given some prefix of the string |
| `GlobMatch.SkipStars` | match.cc:144-147 | Behind an exhausted string only stars may be left |
| `PatternLimits.Limits` | util.cc:44-88 | Which patterns get a range, and that the two buffers hold the literal prefix and its upper bound |
| `PatternLimits.Raise` | util.cc:81-86 | The in-place upper bound |
| `PatternLimits.RangeHolds` | util.cc:81-86 | The range holds exactly the keys with the prefix; when the last byte is 0xFF, exactly the prefix itself |
| `PatternLimits.PlannableCovers` | util.cc:44-88 | Every key such a pattern matches starts with the prefix and lies in the range |
| `PatternLimits.MatchesPrefix` | match.cc:129-149 | A literal prefix followed by more pattern splits every matched key in two |
| `PatternLimits.BarrenMatchesNothing` | match.cc:72-118 | A class that no byte is in makes a pattern match nothing |
| `PatternLimits.Missed` | util.cc:81-83 | For every other pattern, a key that is matched and not in the range |
| `PatternLimits.CompleteExactly` | util.cc:44-88 | The range covers all matches if and only if the prefix does not end in 0xFF before more pattern, no letter of it is compared regardless of case, or the pattern can match nothing |
| `PatternLimits.LastByteMissed` | util.cc:81-83 | FF* matches FF 00, which is outside its range |
| `PatternLimits.OtherCaseMissed` | util.cc:44-88 | a matches A regardless of case, outside its range |
| `PatternLimits.Atop` | util.cc:90-100 | -1 if and only if some byte is no digit or the number wraps to -1; otherwise the number as an int, right if and only if an int can hold it |
| `PatternLimits.MinusOneInDigits` | util.cc:90-100 | The digits 4294967295 give -1 |
| `PatternLimits.ToIntStep` | util.cc:97 | Wrapping at every digit is wrapping once at the end |
| `Lifecycle.StepInv` | request.cc:36-66 | Every hand-over of a request between poll threads, engine, completion threads and reply threads, and every acknowledgement a poll thread writes after its hand-over, keeps the invariant of memory, queues and history |
| `Lifecycle.CreatedPlaces` | exec.cc:94-123 | A new request is with the engine and nowhere else |
| `Lifecycle.AcknowledgedHistory` | exec.cc:53-59 | The reply that a command writes itself, after the hand-over, completes the replies of its request whether the request is still under way or has been freed |
| `Lifecycle.CompletedPlaces` | request.cc:172-179 | For every type the engine may leave, the request moves from the engine to its completion thread and agrees with the type left |
| `Lifecycle.EnqueuedPlaces` | request.cc:186-188 | Room in the queue of the client moves the request there, once |
| `Lifecycle.DequeuedPlaces` | poll_server.cpp:92-102 | A dequeued request is with the reply thread only |
| `Lifecycle.AnsweredPlaces` | poll_server.cpp:114-146 | After the answer nobody has the pointer |
| `Lifecycle.FreedPlaces` | request.cc:228-239 | A SET is freed by the completion thread; nobody else has its pointer |
| `Lifecycle.FreedHistory` | request.cc:50-66 | A free closes the history of its request: one free, the reply of the reply thread behind or before that of the command, the tag to the pool of its birth |
| `Lifecycle.HeldByHandler` | poll_server.cpp:131-137 | A reply thread never holds a SET, so the branch that would not free is never taken |
| `LifecycleTheorems.FreedOnce` | request.cc:50-66 | Over all runs every request is live or was freed exactly once, and every pointer any thread or queue holds is live |
| `LifecycleTheorems.FreedStaysFreed` | request.cc:50-66 | A freed request never comes back |
| `LifecycleTheorems.OnePlace` | request.cc:186-241 | Over all runs a live request is in exactly one of: engine, completion thread, one index of one queue, one reply thread; queue and reply thread are those of its client |
| `LifecycleTheorems.Replies` | poll_server.cpp:114-146 | Over all runs: a GET gets nothing before it is freed and then one bulk string of 8192 zero bytes if found, one nil if not; SET and UPT get one reply, exactly when the poll thread has acknowledged them, freed or not; a DEL gets that one too, and a nil when it is freed, in either order |
| `LifecycleTheorems.PeerReads` | poll_server.cpp:114-146 | To this reader on the side of the peer the page is one bulk string of 8192 zero bytes, and the short replies are OK, KO and NOT |
| `LifecycleTheorems.HandedOver` | exec.cc:27-58 | Over all runs a live request has kind, client, key (counted from one, modulo 2^64), value and tag of a command of the run, and the engine is handed the type of its kind |
| `LifecycleTheorems.OneReplyExactly` | exec.cc:197-224 | A request that has been freed and acknowledged has been answered exactly once if and only if it is not a DEL |
| `LifecycleTheorems.RepliesToAsker` | poll_server.cpp:118-142 | Every reply goes to the client that asked |
| `LifecycleTheorems.TagsReturnExactly` | request.cc:50-59 | Every tag returns to the pool it was taken from, rewritten type or not, if and only if no DEL has been freed |
| `LifecycleTheorems.PoolsConserved` | request.cc:28-34 | In runs that free no DEL, each tag is free or with exactly one live request, and both pools are whole again when no request is left |
| `LifecycleTheorems.DelRoundTrip` | exec.cc:205-222 | From any state with an idle queue, a DEL ends by freeing a GET tag it never took and by a second reply |
| `LifecycleTheorems.SwiftDel` | exec.cc:218-222 | A run in which the nil for a DEL is written before the reply of the command itself |
| `LifecycleTheorems.SwiftSet` | exec.cc:53-59 | A run in which a SET has been freed and its client has been told nothing yet |
| `LifecycleTheorems.DelReturnsForeignTag` | exec.cc:210-212 | A run after which tag 0 is free while a live GET still has it |
| `LifecycleTheorems.AnsweredInOrder` | poll_server.cpp:83-149 | A reply thread answers the requests of its queue in the order they were put in, leaving none out, and at most 4096 wait |
| `Server.Server.constructor` | poll_server.cpp:582-589 | Empty queues with idle reply threads |
| `LifecycleTheorems.CreatedPool` | request.cc:28-30 | A tag taken by a new request leaves its pool, and each tag stays free or with exactly one request |
| `LifecycleTheorems.FreedPool` | request.cc:32-34 | A tag given back by a request that took it is free again, and no other |
| `ClientLifetime.ClosingSafeExactly` | poll_server.cpp:415-418 | A client may be freed, with no command of it to come, if and only if no request of it is under way but SETs and no command of it is still to be acknowledged: only then does no continuation ever follow a pointer to it |
| `ClientLifetime.RepliesGoToOpenClients` | poll_server.cpp:114-142 | If clients are closed only then, every look-up of a queue, every acknowledgement and every reply of the run is for an open client; a later connection on the same descriptor is another client |
| `ClientLifetime.LeavingBehindGet` | poll_server.cpp:415-418 | A client that asks for a key and is closed at once is touched afterwards by some continuation |
| `Server.Server.FreeReq` | request.cc:50-66 | The type is made 2 unless it is 1, the tag goes to that pool, the memory is gone |
| `Server.Server.ExecGet` | exec.cc:94-123 | Two words make one GET and write nothing; any other number of words is an error without effect |
| `Server.Server.ExecSet` | exec.cc:27-92 | Three words make one SET or UPT, hand it over and then write its reply, with any steps of the other threads in between; any other number is an error without effect |
| `Server.OthersLeaveOwing` | exec.cc:53-58 | Whatever the other threads do after the hand-over, the poll thread still has exactly that request to acknowledge |
| `Server.Server.ExecDel` | exec.cc:197-224 | Two words make one DEL without a tag, hand it over and then write its reply, with any steps of the other threads in between; any other number is an error without effect |
| `Server.Server.EndReq` | request.cc:172-267 | One round of a completion thread: done exactly if the request is a SET, which is freed, or if the queue of its client has room and is not busy, where it is put; otherwise nothing changes |
| `Server.Server.HandleOne` | poll_server.cpp:83-149 | One round of a reply thread is a dequeue and an answer: exactly one reply, for the type the request came with and to the client that asked, and the pointer is gone; it finds one exactly if the queue is neither empty nor busy, and otherwise changes nothing |
| `Server.Server.Respond` | poll_server.cpp:114-146 | The three replies, and which of them free the request |
| `ConnectionTable.Compact` | poll_server.cpp:423-434 | The nested loops over both tables compute Swept on the pairs |
| `ConnectionTable.Remove` | poll_server.cpp:428-431 | Both tables lose entry i and keep the rest in order |
| `ConnectionTable.SweepKeepsLive` | poll_server.cpp:423-434 | Exactly the entries with a descriptor other than -1 are kept, in order, every descriptor with its client |
| `ConnectionTable.SweepRemovesAll` | poll_server.cpp:423-434 | One sweep removes every closed entry if and only if no two of them are neighbours |
| `PriorityQueue.Heap.constructor` | priority_queue.c:60-63 | An empty queue without nodes |
| `PriorityQueue.Heap.Grow` | priority_queue.c:6-9 | Keeps the nodes; four nodes first, twice as many whenever it is full |
| `PriorityQueue.Heap.Push` | priority_queue.c:5-20 | Exactly the new node is added, and a heap in (unsigned) order stays in order, for every 32-bit priority |
| `PriorityQueue.Heap.SiftUp` | priority_queue.c:10-19 | The hole moves up to where the node belongs |
| `PriorityQueue.Heap.Front` | priority_queue.c:51-58 | The root, before which no node comes in a heap in order: of small priorities, the least |
| `PriorityQueue.Heap.Pop` | priority_queue.c:22-49 | Terminates and removes exactly the root, whatever the order was; on a heap in order the result is Popped |
| `PriorityQueue.Heap.SiftDown` | priority_queue.c:29-46 | The descent keeps the held nodes; on a heap in order it stops after one level |
| `PriorityQueue.PopKeepsOrder` | priority_queue.c:28-46 | A pop leaves the heap in order if and only if the last node comes no later than the nodes that end up below it |
| `PriorityQueue.PopBreaksOrder` | priority_queue.c:28-46 | A heap of five nodes that a pop puts out of order |
| `PriorityQueue.RootIsLeast` | priority_queue.c:51-58 | In a heap in order the root comes first |
| `PriorityQueue.ReadingsAgree` | priority_queue.c:12-34 | For priorities in the non-negative int range the unsigned order of a push and the signed order of a pop are the same |
| `PriorityQueue.StepUp` | priority_queue.c:12-16 | One move of a parent into the hole keeps order around the hole and the held nodes |

## Left out

- MpmcRing.Ring.Enqueue: takes as many turns as `weak` has elements and may report that it is still trying; the original loops without bound.
- MpmcRing.Ring.Dequeue: the same bound on its retry loop.
- MpmcRing.Ring.constructor: establishes `Valid` from two slots on only, because size 1 is unsafe (`MpmcTheorems.SafeExactlyFromTwo`); the destructor is not modelled.
- MpmcTheorems.DeliveryByTicket: asks for at least two slots for the same reason; memory orders weaker than sequential consistency are not modelled.
- MpmcProtocol.InitInv: asks for at least two slots, because the invariant distinguishes the stamps of a ticket and of its next lap; with one slot delivery fails (`MpmcTheorems.SizeOneUnsafe`).
- MpmcWords.RunAlike: asks that no thread that moves lags by half a wrap of the 64-bit counter or more; beyond that the signed difference is not the real one (`MachineWords.DifIsReal`).
- ClientReader.Client.OnRead: asks for room in the output buffer, which the original never checks; negative results of recv are not modelled. On a live connection the original runs off the end of the function without a return value; that is modelled as staying open.
- ClientReader.Client.ExecCommand: what a command writes, whether it marks the output and how it ends is a parameter, a function of its arguments.
- BoundedBuffer.RoomExactly: its if-and-only-if leaves out streams with a command that closes, behind which nothing is read.
- ClientReader.Client.ReadSimple: after an unknown simple string the original uses a variable it never set; its content is the parameter `junk`.
- ClientReader.Client.TakeBulk: a bulk length within two of the largest int overflows in the original; lengths are unbounded here.
- ClientReader.Client.Compact: the copy of overlapping regions, undefined in C, is modelled as a forward copy; the argument table is a `seq`, not two reallocated arrays.
- ClientOutput.Output.FlushOffset: write is taken to accept a positive number of bytes; on EWOULDBLOCK the original counts -1 bytes and resends one.
- ClientOutput.Output.Write: asks for room, which the original does not check.
- SharedOutput.Perform: poll thread and reply thread share the buffer without a lock; a write, a reply with its flush, and the flush at the end of a read are one action each, and what happens when the two overlap within one of these is not modelled.
- SharedOutput.RunsOver: a reply may fall anywhere and say anything; which requests are under way, and so how many replies can fall, is in `Lifecycle`, whose steps are not joined with the reads of a connection.
- GlobMatch.StringMatchLen: excludes an empty string in front of a byte that fits a first token which is a class or a literal byte (the original takes that byte for the string and runs on behind it), and asks for classes that do not end in a dangling backslash and for a byte behind the pattern that is none of `*`, `]`, `\`, `^`, because the original reads that byte.
- PatternLimits.Limits: allocation does not fail.
- PatternLimits.Atop: signed overflow, undefined in C, is modelled as two's complement.
- Lifecycle.StepInv: a step is a hand-over between threads or an acknowledgement; what a thread does alone between two of these is one step. That one poll thread serves each client is not part of the steps. They keep clients as values, one for each connection whatever its descriptor; freeing one is in `ClientLifetime`.
- Server.Server.ExecGet: calloc's address, the tag of the DMA library and what atoi finds in the key are parameters; an allocator without free tags waits.
- Server.Server.MakeReq: a refusal by the engine, which ends the process, is not modelled; the run counters and timers are left out.
- Server.Server.ExecSet: the copy of values longer than the DMA buffer is not modelled.
- Server.Server.Others: its body does nothing; the commands know only its contract, under which the other threads have taken any steps.
- Server.Server.HandleOne: the queue is the bounded FIFO that `MpmcTheorems.StepRefinesFifo` shows the ring to be, and reports empty when it is `busy`, as the ring is while its front is being written (`MpmcTheorems.EmptyIsHonest`); a round is taken as a whole, and its two halves are separate steps in `Lifecycle.Step`.
- Server.Server.EndReq: the queue refuses when it is full or `busy`, as the ring is while its oldest slot is still being read (`MpmcTheorems.FullIsHonest`).
- PriorityQueue.Heap.Push: length and size do not overflow, and realloc does not fail.
- ConnectionTable.Compact: asks for one entry of the arrays behind the table, which the loop reads; the event masks, which the loop does not move, are not modelled.
- The ring's `isempty` (lfmpmc.h:103-139) claims a ticket without releasing its slot, which breaks the protocol; nothing calls it.
- MSET and MGET make the same requests in a loop; the counter of open items of MGET is not modelled.
- The storage engine, the DMA library, thread pools, timing and debug counters are an environment: the engine completes each request once and may turn a GET into "not found".
- Sockets, poll, accept and their options.
- `command.c`, `poll_server_buse.cpp`, `poll_server_busefs.cpp`, `multi_server.cpp`, `udp_server.cpp`: superseded or near-copies of what is modelled.
- Key iteration for SCAN and KEYS, command name dispatch, `hashMap.cc` and `queue.c`.
- The vendored `include/rocksdb` headers, scripts and build files.
