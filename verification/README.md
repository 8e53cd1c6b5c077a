# Verified model of libqt

libqt is a small C++ library on top of Qt. This project models the parts of it
that are algorithms or protocols of their own and proves what they guarantee.

| files | what they model |
|---|---|
| `crc_tables`, `bit_stream`, `shift_register`, `byte_register` | the lookup tables of `Crc`, and the shift registers behind `calc16` and `calc32` |
| `crc32`, `crc32_laws` | `Crc::calc32`: the table-driven loop and what it guarantees |
| `crc16`, `crc16_laws` | `Crc::calc16`: the two-lane Modbus loop and what it guarantees |
| `gf2`, `register_polynomial`, `crc_polynomial` | both checksums as polynomial division over GF(2), and which changes they miss |
| `powers`, `divisibility`, `order`, `two_bit_errors` | after how many steps each register comes back, and so which two-bit errors are missed |
| `text`, `text_boundary` | `File::findSentenceBoundary`, `File::findParagraphBoundary` |
| `utf8`, `file_chunker`, `chunking_laws` | `FileChunker::chunkText` and the bytes it hands out |
| `channel`, `channel_protocol`, `finite_sets` | `Channel` (and `ObjPool`, which is the same machine), alone and under concurrency |
| `dbconn_pool`, `dbconn_protocol`, `dbconn_laws`, `dbconn_steps` | `DBConnPool`, its locked operations and all interleavings of them |
| `timed_queue`, `timed_queue_runs`, `timed_queue_laws` | `TimedQueue` with tasks that call the queue themselves |
| `message_v1`, `codec` | `MessageV1` frames and the `Codec` reassembler |
| `octets`, `wrappers` | bytes as numbers; `Option` |

Code that changes state is modelled by classes and by methods with loops, each
proved against a specification function or relation. The laws about those
specifications are lemmas. Protocols with several threads are state machines
whose runs are sequences of atomic actions.

## How the model reads the code

- CRC: bytes and table entries are bit vectors of their own width. The tables are
  copied entry for entry; a table is a function of its index, written in sixteen rows
  of sixteen. `Word`, `LowByte`, `DropByte`, `Xor` name the shifts, masks and
  exclusive-ors of the loops. The 16-bit register is the low half of a word, so that
  both registers share their laws; `Code` tells them apart and `Fits` says that the
  upper half is clear. Everywhere else a byte is a number.
- Text is a sequence of UTF-16 code units. The conversion of a 64-bit position to
  the `int` loop counter is modelled, see `TextBoundary.CounterWidth`.
- `QString::toUtf8` is section 3 of RFC 3629, with a question mark for a surrogate
  that has no partner.
- A chunk callback is an object with state. `Collector` is the one the loop is made
  for: it keeps non-empty data, moves the cursor past it, and decides from what it
  has whether it wants more.
- A database connection is an identity, whether it is open, and whether opening it
  would succeed; the factory is an infinite sequence of such products, a parameter
  of every result. Timed waits may end either way. A loop that can go on for ever is
  watched for a number of rounds, which is a parameter, and the result says whether it
  was over by then.
- A task of `TimedQueue` is the list of calls it makes on the queue. The slot connected
  to `signalQueueOverflow` is such a list too; it runs between the drops and the
  storing of the new task.
- The stream format of a byte array is a four-byte big-endian length and the bytes;
  reading past the end gives zero or an empty array.

## Where the code does less than it is meant to do

- `calc16` never looks at the first byte (`Crc16Laws.FirstByteIgnored`), so appending
  its result clears the checksum of every message but the empty one
  (`Crc16Laws.ResidueIsZero`).
- `Channel` and `ObjPool` release a permit before they store the item, so a consumer
  can meet an empty queue (`ChannelProtocol.EmptyDequeueReachable`);
  `ChannelProtocol.EnoughForTakers` says exactly when there is enough for everyone.
- `DBConnPool::exec` loses a connection that has gone stale when it checks what
  `acquire` gave it (`ConnLaws.StaleAfterAcquireIsLost`). Nothing else loses
  one: every run loses exactly as many as it has such checks
  (`ConnLaws.LostIsCounted`), and so none if and only if it has none
  (`ConnLaws.NothingLost`).
- `DBConnPool::setConnNum` loops forever if the factory has too few usable products
  to come, and only then (`ConnPool.FillingGoesOn`); `acquire` does if the pool is not
  empty and no open connection is to come (`ConnPool.RotationGoesOn`).
- `TimedQueue` dequeues from an empty queue if and only if its maximum is below one
  and something is enqueued (`TimedQueueRuns.BrokenIf`).
- `TimedQueue` exceeds its maximum if and only if it overflows and the slot of the
  overflow signal fills up the queue again (`TimedQueueRuns.BoundKept`, with the input
  `TimedQueueRuns.OneTooMany`). If the slot even overflows the queue, it is called again
  inside itself without end (`TimedQueues.NestedIs`, `TimedQueueRuns.StuckIf`).
- CRC-16 misses two flipped bits that are a multiple of 32767 bits apart, which takes
  4097 bytes (`TwoBitErrors.Crc16TwoFlips`, with the input
  `TwoBitErrors.Crc16TwoFlipsMissed`).
- `encode` and `decode` return four less than the bytes of the frame, because the
  stream adds a length of its own, and the 16-bit header wraps around beyond 32765
  bytes of payload (`MessageFrames.ReturnFallsShort`).
- `Codec` reads at the end of its buffer and so removes nothing; it emits the first
  message again and again, and empty ones before that message is complete
  (`Codecs.AsWritten`, with the inputs `Codecs.SecondMessageLost` and
  `Codecs.EarlyEmptyMessage`). `Codecs.CorrectAsWritten` says exactly when that
  happens to be right, and `Codecs.Reassembly` is proved of the reassembler that
  removes the bytes it has consumed and delivers every complete frame.
- `chunkText` cuts surrogate pairs; each cut pair costs two bytes of the encoding
  (`ChunkingLaws.ChunkBytes`, with the input `ChunkingLaws.BrokenPair`). A callback
  that leaves the cursor where it is gets the same chunk without end
  (`ChunkingLaws.StalledCallback`).
- The boundary searches look at nothing in a window that ends beyond 2^31
  (`TextBoundary.NothingSearched`).

## Model

| member | source | states |
|---|---|---|
| Crc32.Calc32 | libqt/crypto/crc.cpp:19-26 | the table-driven loop equals the bit-at-a-time shift register, every byte low bit first, started with and complemented by all ones, for every message |
| Crc32.TableEntry | libqt/crypto/crc.h:69-134 | all 256 table entries are eight register steps of their index |
| Crc32.TableShift | libqt/crypto/crc.cpp:23 | one lookup and byte shift does exactly eight register steps, for every 32-bit register |
| ShiftRegister.ShiftLinear | libqt/crypto/crc.h:11-134 | any number of steps of either register is linear over GF(2) |
| ShiftRegister.ShiftInvertible | libqt/crypto/crc.h:11-134 | steps can be undone, with a two-sided inverse on the values that fit the register |
| ShiftRegister.RunLinear | libqt/crypto/crc.cpp:9-23 | a run is linear in starting value and input together |
| ShiftRegister.RunSeparates | libqt/crypto/crc.cpp:9-23 | from the same register, two different inputs of equal length that are no longer than the register lead to different registers |
| ByteRegister.SameFeed | libqt/crypto/crc.cpp:9-23 | two messages of equal length lead to the same register if and only if their difference leaves a zero register at zero |
| Crc32Laws.Concatenation | libqt/crypto/crc.cpp:19-26 | the checksum of a + b is the checksum of a shifted by the length of b, xor the checksum of b |
| Crc32Laws.ThreeWayXor | libqt/crypto/crc.cpp:19-26 | for equally long messages the checksum of a xor b xor c is the xor of the three checksums |
| Crc32Laws.BurstDetected | libqt/crypto/crc.cpp:19-26 | two different messages of equal length that agree outside some 32 consecutive bits, at any bit position, have different checksums |
| Crc32Laws.BurstBoundIsTight | libqt/crypto/crc.cpp:19-26 | 33 bits are too many: two concrete messages that differ within 33 bits have the same checksum |
| Crc32Laws.UniqueCompletion | libqt/crypto/crc.cpp:19-26 | after any prefix, a four-byte suffix leads to a given checksum if and only if it is the one that is computed for it |
| Crc32Laws.ConstantResidue | libqt/crypto/crc.cpp:19-26 | appending the checksum low byte first always gives the checksum 0x2144DF1C |
| Crc32Laws.RollBackUnique | libqt/crypto/crc.cpp:22-23 | the register before a byte is determined by the register after it |
| Crc32Laws.TopBytesDistinct | libqt/crypto/crc.h:69-134 | no two table entries have the same top byte |
| CrcPolynomial.Crc32IsRemainder | libqt/crypto/crc.cpp:19-26 | the complemented, bit-reflected checksum is the one and only remainder of x^32 times the message polynomial plus x^(8 length) times 32 ones, modulo the CRC-32 generator |
| CrcPolynomial.Crc16IsRemainder | libqt/crypto/crc.cpp:3-17 | the result of calc16 with its bytes swapped back, bit-reflected, is the one and only such remainder of the message without its first byte, with 16 in place of 32, modulo x^16 + x^15 + x^2 + 1 |
| CrcPolynomial.Crc32Misses | libqt/crypto/crc.cpp:19-26 | two messages of equal length have the same checksum if and only if the generator divides the polynomial of their difference |
| CrcPolynomial.Crc16Misses | libqt/crypto/crc.cpp:3-17 | the same for calc16, with the first bytes left out |
| RegisterPolynomial.StepPoly | libqt/crypto/crc.h:11-134 | a step of either register is one step of long division by its generator |
| RegisterPolynomial.RegisterPolyInjective | libqt/crypto/crc.cpp:3-26 | different register values are different polynomials, so the remainder determines the checksum |
| RegisterPolynomial.MessagePolyCoefficient | libqt/crypto/crc.cpp:9-22 | the k-th coefficient of the message polynomial is the message bit k places before the last |
| Gf2.RemainderUnique | libqt/crypto/crc.cpp:19-26 | a polynomial over GF(2) has at most one remainder modulo a divisor of given degree |
| Crc16.Calc16 | libqt/crypto/crc.cpp:3-17 | the two-lane loop gives the reflected 0xA001 register over all bytes but the first, with its two bytes swapped |
| Crc16.TablesJoint | libqt/crypto/crc.h:11-67 | the two byte tables together hold, at every index, the register that eight steps make of the index |
| Crc16.LaneStep | libqt/crypto/crc.cpp:9-14 | one round of the two lanes is adding the byte to the joined register and taking eight steps |
| Crc16Laws.ResidueIsZero | libqt/crypto/crc.cpp:3-17 | appending the result, high byte first, gives zero if and only if the message was not empty |
| Crc16Laws.ParityPreserved | libqt/crypto/crc.cpp:9-16 | the parity of the result's bits is the parity of the bits after the first byte |
| Crc16Laws.OddFlipsDetected | libqt/crypto/crc.cpp:9-16 | any odd number of flipped bits after the first byte changes the result |
| Crc16Laws.FirstByteIgnored | libqt/crypto/crc.cpp:9 | the result does not depend on the first byte |
| Crc16Laws.BurstDetected | libqt/crypto/crc.cpp:9-16 | two messages of equal length that differ after the first byte, within some 16 consecutive bits at any bit position, have different results |
| Crc16Laws.BurstBoundIsTight | libqt/crypto/crc.cpp:9-16 | 17 bits are too many: whatever the first byte, two concrete tails that differ within 17 bits have the same result |
| Crc16Laws.Concatenation | libqt/crypto/crc.cpp:3-17 | for a non-empty a the result of a + b follows from the results of a and of b behind any first byte, and the length of b |
| Order.OrderOfX | libqt/crypto/crc.h:11-134 | the register 1 is back after n steps if and only if n is a multiple of 32767 (CRC-16) or of 2^32 - 1 (CRC-32) |
| TwoBitErrors.Crc16TwoFlips | libqt/crypto/crc.cpp:9-16 | two flipped bits after the first byte are missed if and only if their distance is a multiple of 32767 |
| TwoBitErrors.Crc16SeesTwoFlips | libqt/crypto/crc.cpp:9-16 | so in a message of at most 4096 bytes they never are |
| TwoBitErrors.Crc16TwoFlipsMissed | libqt/crypto/crc.cpp:9-16 | two concrete messages of 4097 bytes that differ in two bits have the same result, whatever the first byte |
| TwoBitErrors.Crc32TwoFlips | libqt/crypto/crc.cpp:19-26 | two flipped bits are missed if and only if their distance is a multiple of 2^32 - 1 |
| TwoBitErrors.Crc32SeesTwoFlips | libqt/crypto/crc.cpp:19-26 | so in a message of less than 2^29 bytes they never are |
| TextBoundary.FindSentenceBoundary | libqt/io/file.h:194-221 | the result is the greatest sentence end whose terminator lies strictly inside the window, else the window's end; it lies after start, at most two past end, and within the text |
| TextBoundary.FindParagraphBoundary | libqt/io/file.h:223-240 | the result is the greatest end of a blank line, in any of three spellings, that starts strictly inside the window, else the window's end; at most three past end, never past a text that end is within |
| TextBoundary.SentenceCutMeans | libqt/io/file.h:194-221 | in a window that the counter covers, the answer is the end of some sentence whose terminator lies strictly inside and no such sentence ends later, or the window's end if there is none, whatever stands at start |
| TextBoundary.ParagraphCutMeans | libqt/io/file.h:223-240 | the same for blank lines |
| TextBoundary.SentenceEndSpelled | libqt/io/file.h:197-218 | a sentence ends exactly at one of four terminators at the text's end, before a space, or before one of four closing characters and a space; the characters are listed by number |
| TextBoundary.BlankLineSpelled | libqt/io/file.h:228-237 | a blank line is exactly one of the three spellings, character by character, within the text |
| TextBoundary.SentenceEndsOrdered | libqt/io/file.h:198-219 | a later terminator always ends later, so the first hit of the backward scan is the greatest |
| TextBoundary.BlankLinesOrdered | libqt/io/file.h:226-238 | overlapping separators of different length: one that starts later never ends earlier |
| TextBoundary.LastCutUnique | libqt/io/file.h:194-240 | the description of the result admits only one value |
| TextBoundary.SentenceRunPartitions | libqt/io/file.h:194-221 | repeated calls with windows of n >= 1 make progress each time, so there is at most one call per character, and at every moment the pieces concatenate to the text up to the last boundary |
| TextBoundary.CutSentences | libqt/io/file.h:194-221 | calling again until the end always gets there: the pieces then concatenate to the whole text and have 1 to n + 2 characters |
| TextBoundary.ParagraphRunPartitions | libqt/io/file.h:223-240 | progress at each call and pieces that are the text up to the last boundary, for paragraphs |
| TextBoundary.CutParagraphs | libqt/io/file.h:223-240 | the end is always reached, the pieces concatenate to the whole text and have 1 to n + 3 characters |
| TextBoundary.CounterWidth | libqt/io/file.h:197-219 | the int counter covers the window and all positions computed from it, up to a given number ahead (three for sentences, four for paragraphs), are ints if and only if the window ends at least that number below 2^31 |
| TextBoundary.NothingSearched | libqt/io/file.h:197 | for a window that ends beyond 2^31, up to 2^32, either search answers with its end whatever the text holds |
| Utf8.EncodeSplit | libqt/io/filechunker.h:54 | the encodings of two parts concatenate to the encoding of the whole if and only if no surrogate pair is cut, and a cut pair makes a difference of two bytes |
| Utf8.DecodeEncode | libqt/io/filechunker.h:54 | well-formed text is recovered from its encoding |
| Utf8.EncodeValid | libqt/io/filechunker.h:54 | the encoding of any text is in the byte grammar of section 4 of RFC 3629, so it has shortest forms only and no surrogates |
| Utf8.EncodeFirst | libqt/io/filechunker.h:54 | the encoding begins with the bytes that spell the first character, a question mark for a surrogate without partner, and goes on with the encoding of the rest |
| Utf8.OneSpelling | libqt/io/filechunker.h:54 | only one byte sequence of that grammar spells a given number |
| Utf8.EncodeAscii | libqt/io/filechunker.h:54 | characters below 0x80 are encoded as themselves |
| FileChunking.Collector.Call | libqt/io/filechunker.h:24 | the callback's side of the protocol: keep non-empty data, move the cursor by the offset, ask for more until satisfied |
| FileChunking.FileChunker.ChunkText | libqt/io/filechunker.h:30-59 | the callback receives exactly the first n pieces in order, n is returned, and the loop stops at the first point where the callback is satisfied or the text is used up; an empty text changes nothing |
| FileChunking.DeliverNext | libqt/io/filechunker.h:47-54 | the piece made at the cursor is the next delivery, is not empty, and the next cursor follows it |
| ChunkingLaws.CutPartitions | libqt/io/filechunker.h:45-56 | the pieces concatenate to the text, have 1 to chunkSize characters, and number ceil(length / chunkSize) |
| ChunkingLaws.CutAt | libqt/io/filechunker.h:45-54 | piece k is the text from k times chunkSize on, up to chunkSize characters or the end |
| ChunkingLaws.FirstChunks | libqt/io/filechunker.h:45-59 | a callback that wants m chunks gets the first m, or all if there are fewer, and chunk k is the encoding of piece k |
| ChunkingLaws.ChunkBytes | libqt/io/filechunker.h:54 | the chunk bytes fall short of the text's encoding by two bytes for each surrogate pair cut |
| ChunkingLaws.LosslessChunking | libqt/io/filechunker.h:38-58 | with a callback that never stops, ceil(length / chunkSize) chunks are delivered and their bytes concatenate to the UTF-8 of the text if and only if no multiple of chunkSize falls into a surrogate pair |
| ChunkingLaws.BrokenPair | libqt/io/filechunker.h:54 | the chunks of size 1 of one surrogate pair are two question marks, which is not the encoding of the pair |
| ChunkingLaws.CallbackDecides | libqt/io/filechunker.h:42-56 | for any callback, the loop goes on exactly as long as the callback says yes and leaves the cursor before the end; meanwhile the first call gets nothing, the k-th call after it gets the encoding of the chunkSize characters at the cursor left, the offset is their number, and k chunks have been counted |
| ChunkingLaws.ChunksReturned | libqt/io/filechunker.h:45-59 | for any callback, the count returned is the number of the call at which it was over, counted from zero |
| ChunkingLaws.StalledCallback | libqt/io/filechunker.h:45-56 | a callback that wants more and leaves the cursor at the start is given the first chunk without end |
| Channels.Channel.constructor | libqt/sync/channel.h:13-19 | a new channel is empty and has no free permit |
| Channels.Channel.Enqueue | libqt/sync/channel.h:30-40 | the item goes to the back and permits still count the items |
| Channels.Channel.Dequeue | libqt/sync/channel.h:42-46 | with a permit free, the front item is taken |
| Channels.Channel.TryDequeue | libqt/sync/channel.h:48-64 | fails if and only if the channel is empty, and then changes nothing; otherwise takes the front item |
| Channels.Channel.Available | libqt/sync/channel.h:27 | run alone, the number of free permits is the number of items |
| Channels.Channel.Clear | libqt/sync/channel.h:66-70 | ends, with neither items nor permits left |
| ChannelProtocol.StepKeepsInv | libqt/sync/channel.h:30-64 | every atomic half of an operation keeps the four-term balance and the order of the items |
| ChannelProtocol.Balance | libqt/sync/channel.h:30-64 | in every reachable state, permits plus consumers holding one equal items plus producers that have released but not stored |
| ChannelProtocol.EnoughForTakers | libqt/core/objpool.h:34-62 | the queue has an item for every consumer holding a permit if and only if no more producers are halfway than permits are free |
| ChannelProtocol.EmptyOnlyWhileStoring | libqt/sync/channel.h:42-46 | a consumer meets an empty queue only while some producer is between its two steps |
| ChannelProtocol.EmptyDequeueReachable | libqt/sync/channel.h:30-46 | and a run of two steps gets there |
| ChannelProtocol.QuietCount | libqt/core/objpool.h:24 | with nobody halfway, the number of available permits is the number of stored items |
| ChannelProtocol.StepsCount | libqt/sync/channel.h:30-64 | in every run the permits are releases less acquires, the items in the queue stores less takes, the histories have one entry per store and per take, and who has done only the first half is halfway |
| ChannelProtocol.TakeGets | libqt/sync/channel.h:42-46 | the take that comes after k others gets the item stored after k others |
| ChannelProtocol.TakenIsPrefix | libqt/sync/channel.h:42-64 | what was taken, in order, is a prefix of what was stored, in order, and the queue is the rest |
| ChannelProtocol.ProducerOrder | libqt/core/objpool.h:58-62 | each producer's items arrive in the order offered, each exactly once, up to one still in hand |
| ConnPool.DBConnPool.SetConnNum | libqt/db/dbconnpool.cpp:39-60 | over within a number of rounds if and only if queue and usable products of so many rounds reach num; then it has grown by the first usable products, opened, and asked for no product more, with one error signal per unusable one, or kept the last num connections; otherwise it is still growing with what has come |
| ConnPool.DBConnPool.Acquire | libqt/db/dbconnpool.cpp:113-124 | over within a number of rounds if and only if the pool is empty, which gives none, or an open connection comes to the front in them; then the first one in order is returned, every stale one before it is removed and replaced at the back by a product, and the queue is one shorter; otherwise it is still rotating |
| ConnPool.DBConnPool.Giveback | libqt/db/dbconnpool.cpp:127-132 | the connection goes to the back, nothing else changes |
| ConnPool.DBConnPool.Exec | libqt/db/dbconnpool.cpp:68-87 | run in place, exec returns the connection it took to the back of the queue, and signals errors for a failed query or an empty pool; it gets no further while acquire is rotating |
| ConnPool.RotationGoesOn | libqt/db/dbconnpool.cpp:117-124 | the rotation goes on exactly as long as stale connections come to the front, so it ends if and only if the pool or the factory has an open one to come |
| ConnPool.FillingGoesOn | libqt/db/dbconnpool.cpp:42-52 | the growing loop goes on exactly as long as the queue and the usable products so far are fewer than asked, so it ends if and only if enough usable ones are to come |
| ConnPool.FillsForever | libqt/db/dbconnpool.cpp:42-52 | with no usable product to come it never ends |
| ConnPool.RotateOnce | libqt/db/dbconnpool.cpp:118-123 | after k rounds the queue holds the connections k to k + n - 1 of queue followed by products |
| ConnPool.ProductAt | libqt/db/dbconnpool.cpp:44-51 | the products that are open, or open when asked to, are queued in factory order and open; the others are not queued |
| ConnPool.TakenFromQueue | libqt/db/dbconnpool.cpp:117-124 | when the queue has an open connection, the first one is taken, the closed ones before it are removed, and as many products stand at the back |
| ConnPool.TakenFromFactory | libqt/db/dbconnpool.cpp:117-124 | when it has none, all of it and the products before the first that comes open are removed, that one is taken, and the next products fill the queue |
| ConnPool.GrowThenAcquire | libqt/db/dbconnpool.cpp:39-124 | a new pool that is told to hold connections gives out the first usable product, open, without replacing any |
| ConnProtocol.StepKeepsInv | libqt/db/dbconnpool.cpp:39-132 | every atomic step keeps handles exclusive, dropped handles gone, and lendings answered |
| ConnLaws.NeverShared | libqt/db/dbconnpool.cpp:99-132 | in every run with fresh products, no handle is queued twice, lent twice, or queued while lent, whatever the unlocked test saw |
| ConnLaws.LendingsAnswered | libqt/db/dbconnpool.cpp:68-97 | in every run, lendings of a handle exceed its returns and drops by one exactly while it is held, and otherwise equal them |
| ConnSteps.HandedOutOpen | libqt/db/dbconnpool.cpp:70-121 | a thread or task comes to have a connection, or to run its query, only if that connection is open at that moment |
| ConnSteps.QueueDecides | libqt/db/dbconnpool.cpp:99-124 | the queue determines what a waiting thread or one with the lock can do, up to one choice of connection |
| ConnSteps.ClientRoundTrip | libqt/db/dbconnpool.cpp:99-132 | acquire and giveback with an open connection in front move it to the back and change nothing else |
| ConnSteps.ExecInPlace | libqt/db/dbconnpool.cpp:68-87 | so does exec in place |
| ConnSteps.ExecAsTask | libqt/db/dbconnpool.cpp:89-96 | so does exec with a task, which has the connection after exec is through |
| ConnSteps.StaleIsReplaced | libqt/db/dbconnpool.cpp:117-124 | a queued connection that goes stale is passed over and replaced at the back |
| ConnSteps.EmptyPool | libqt/db/dbconnpool.cpp:99-115 | with an empty queue a timed acquire waits, and gets nothing when it times out; an untimed one gets nothing at once |
| ConnSteps.WaiterServed | libqt/db/dbconnpool.cpp:99-132 | a connection given back while another thread waits is lent to that thread |
| ConnSteps.LendMatchesAcquire | libqt/db/dbconnpool.cpp:113-124 | every outcome of the locked part of acquire is one step of the protocol |
| ConnSteps.ResizeMatchesSetConnNum | libqt/db/dbconnpool.cpp:39-60 | and so is every outcome of setConnNum |
| ConnLaws.StepConserves | libqt/db/dbconnpool.cpp:39-132 | the number of connections queued or lent is changed by two kinds of steps only: setConnNum makes the queue as long as asked, and a check in exec that finds its connection closed loses that one |
| ConnLaws.LostIsCounted | libqt/db/dbconnpool.cpp:68-75 | from any state, every run of any threads loses exactly as many connections as it has such checks |
| ConnLaws.NothingLost | libqt/db/dbconnpool.cpp:68-75 | no connection is lost if and only if no check in exec finds its connection closed |
| ConnLaws.SteadyNeverLost | libqt/db/dbconnpool.cpp:68-75 | in particular no connection is lost in a run in which no lent connection goes stale |
| ConnLaws.RunConserves | libqt/db/dbconnpool.cpp:99-132 | from any state, a run without setConnNum lowers the number of connections queued or lent by its stale checks, and so keeps it if and only if there is none |
| ConnLaws.StaleAfterAcquireIsLost | libqt/db/dbconnpool.cpp:70-75 | a connection that goes stale right after acquire is dropped without being given back |
| TimedQueues.TimedQueue.Enqueue | libqt/sync/timedqueue.h:30-42 | with room, the task goes to the back; otherwise the oldest leave as dropped until one more fits, their number is signalled, the slot of the signal makes its calls, and then the task goes to the back; with a maximum below one all tasks leave and then an empty queue is asked for one more |
| TimedQueues.TimedQueue.EmitOverflow | libqt/sync/timedqueue.h:39 | the slot makes its calls in order, up to one that overflows the queue again |
| TimedQueues.TimedQueue.Clear | libqt/sync/timedqueue.h:57-61 | all tasks leave as cleared, in order, and the timer stops |
| TimedQueues.TimedQueue.Consume | libqt/sync/timedqueue.h:68-75 | the oldest task leaves first and then makes its calls on the queue, clear and enqueue included |
| TimedQueueLaws.RoomForOne | libqt/sync/timedqueue.h:30-42 | with room, the task is stored at the back and nothing else changes |
| TimedQueueLaws.LastTasksKept | libqt/sync/timedqueue.h:30-42 | with nothing connected to the signal, the queue keeps the last maxQueueSize tasks, the new one included; the others are dropped and signalled |
| TimedQueueLaws.OverflowStores | libqt/sync/timedqueue.h:30-42 | an overflow drops the oldest tasks, makes the calls of the slot on what is left as on a plain list, and stores the new task at the back, unless the slot overflows the queue again |
| TimedQueueLaws.EveryCallStores | libqt/sync/timedqueue.h:30-75 | over every run, what was ever stored is what was enqueued from outside, by the tasks executed, and by the slot at each emission, each exactly once |
| TimedQueueLaws.OutsideOrderKept | libqt/sync/timedqueue.h:30-42 | tasks enqueued from outside are stored in that order |
| TimedQueueLaws.OutsideOnly | libqt/sync/timedqueue.h:30-42 | if neither slot nor executed tasks enqueue anything, exactly the tasks from outside were stored, in that order |
| TimedQueueLaws.ConsumeTakesFirst | libqt/sync/timedqueue.h:68-75 | the oldest task and no other is executed; while there is room its calls then act on the rest as on a plain list |
| TimedQueueLaws.TicksExecute | libqt/sync/timedqueue.h:68-75 | n ticks of the running timer execute exactly the first n tasks, if those make no calls, and leave the rest |
| TimedQueueLaws.TimerSwitched | libqt/sync/timedqueue.h:43-61 | start and stop switch the timer; clear stops it and takes every task out as cleared |
| TimedQueueLaws.StoppedExecutesNothing | libqt/sync/timedqueue.h:43-75 | a stopped timer executes nothing until it is started again |
| TimedQueueLaws.ClearStopsTimer | libqt/sync/timedqueue.h:57-61 | after a clear, until the next start, no task is executed |
| TimedQueueRuns.History | libqt/sync/timedqueue.h:30-75 | over every run, whatever the tasks and the slot call, what was stored is what left, in order of leaving, followed by the queue, and the signals add up to the drops; for every maximum |
| TimedQueueRuns.BoundKept | libqt/sync/timedqueue.h:30-42 | for a maximum of at least one, the queue ever exceeds it if and only if it overflows and the calls of the slot, counted, fill it up again; and then by one task only |
| TimedQueueRuns.DropsOneByOne | libqt/sync/timedqueue.h:33-39 | every overflow drops and signals one task, or at most two if the slot fills up the queue |
| TimedQueueRuns.StuckIf | libqt/sync/timedqueue.h:38-39 | a run gets stuck in the slot if and only if there is an overflow and some call of the slot overflows the queue again |
| TimedQueues.NestedIs | libqt/sync/timedqueue.h:30-42 | with such a slot the calls of enqueue inside one another exceed every depth; with any other the slot's calls are not nested and enqueue has the result that the other rows speak about |
| TimedQueueRuns.OneTooMany | libqt/sync/timedqueue.h:30-42 | with a maximum of one and a slot that enqueues, two tasks are queued |
| TimedQueueRuns.BrokenIf | libqt/sync/timedqueue.h:30-36 | an empty queue is asked for a task if and only if the maximum is below one and something is enqueued from outside |
| TimedQueueRuns.ExecutionOrder | libqt/sync/timedqueue.h:68-75 | tasks are executed in the order they were enqueued, each at most once |
| MessageFrames.MessageV1.Encode | libqt/net/proto/message_v1.h:38-46 | writes the frame over the beginning of the buffer and returns four less than its length |
| MessageFrames.MessageV1.Decode | libqt/net/proto/message_v1.h:47-53 | reads header and payload from the beginning of the buffer, zero and empty if bytes are missing, and returns the header |
| MessageFrames.DecodeEncode | libqt/net/proto/message_v1.h:38-53 | decoding a frame gives its payload back, whatever follows it |
| MessageFrames.FrameLayout | libqt/net/proto/message_v1.h:38-46 | a frame is two more than the payload's length in 16 bits, the length in 32 bits, high byte first, and the payload |
| MessageFrames.OverwriteDecodes | libqt/net/proto/message_v1.h:38-53 | encoding over a buffer keeps the bytes behind the frame, and the buffer decodes to the payload |
| MessageFrames.ReturnFallsShort | libqt/net/proto/message_v1.h:47-53 | what decode returns is four less than the bytes of the frame if and only if the payload has at most 32765 bytes |
| MessageFrames.FramesPrefixFree | libqt/net/proto/message_v1.h:38-46 | no frame is a prefix of another one |
| Codecs.Codec.ConsumeBytes | libqt/net/codec.cpp:29-46 | as written: data is appended unless the buffer is full, nothing is removed, and one message is emitted whenever the header at the very beginning is positive |
| Codecs.Codec.ConsumeMsg | libqt/net/codec.cpp:20-27 | the bytes produced for a message are its frame |
| Codecs.BufferGrows | libqt/net/codec.cpp:33-44 | no call ever removes a byte from the buffer |
| Codecs.BufferIsPrefix | libqt/net/codec.cpp:33-34 | the buffer holds exactly what arrived, up to the chunk that filled it |
| Codecs.BufferIs | libqt/net/codec.cpp:33-34 | the buffer is the chunks up to the first one that brought it to 1500 * bufSz bytes, that one whole, and nothing of any later chunk |
| Codecs.AsWritten | libqt/net/codec.cpp:29-46 | on any stream that begins with a frame: nothing, if the 16-bit header of that frame is not positive; otherwise an empty payload for each call that came too early, then the first payload once for every later call |
| Codecs.CorrectAsWritten | libqt/net/codec.cpp:29-46 | this equals the messages sent if and only if the first header is positive, there is one call for each that sees it, all are the same, and none comes too early unless they are empty |
| Codecs.SecondMessageLost | libqt/net/codec.cpp:29-46 | of two different messages in two chunks the first is delivered twice and the second never |
| Codecs.EarlyEmptyMessage | libqt/net/codec.cpp:29-46 | one message cut after its header is preceded by an empty one |
| Codecs.ChunkingIrrelevant | libqt/net/codec.cpp:29-46 | the intended reassembler gives the same messages and the same rest for every cutting of every byte stream |
| Codecs.Reassembly | libqt/net/codec.cpp:29-46 | the intended reassembler delivers exactly the completed payloads in order and keeps an incomplete last frame |

## Left out

- Sockets, signals and slots, event loops, timers, widgets, logging, crash handling, hashing, JSON, archives and processes: decided by Qt or by other libraries.
- The file-system part of `File`, and `chunkFile` and `chunkFiles`, which read files and add up results.
- `ObjPool` has no class of its own here: its `giveback` and `construct` are the `enqueue` of `Channel`, its `acquire` and `tryAcquire` the two forms of dequeuing.
- Data races inside `QQueue` itself: every queue operation is one atomic step.
- ChannelProtocol.TakenIsPrefix: what a consumer gets that takes from an empty queue is undefined in the source, and the runs stop before that step.
- ConnPool.DBConnPool.Acquire: the timed wait before it is part of `dbconn_protocol`.
- ConnPool.DBConnPool.SetConnNum: closing surplus connections is not modelled.
- SQL itself, the callback of a query, `setFactoryFn` and `setThreadPool`, and the destructors.
- TimedQueues.TimedQueue.Enqueue: what an empty queue answers when it is asked for a task is undefined in the source, and the model stops there. The slot makes the same calls each time. Intervals are not modelled, and a task or slot that runs a nested event loop is not.
- TextBoundary.FindSentenceBoundary: in windows that end within two characters below 2^31, or at it, `i + 1` to `i + 3` can overflow `int` in the source, which is undefined; the model's integers do not overflow, and `CounterWidth` with three ahead says which windows are free of it.
- TextBoundary.FindParagraphBoundary: the same within three characters below 2^31, for `i + 1` to `i + 4`; `CounterWidth` with four ahead.
- MessageFrames.MessageV1.Encode: payloads of 4294967294 bytes and more, whose length the stream format writes differently, and the difference between null and empty byte arrays, are not modelled.
- Codecs.Reassembly: is proved of the step the code is meant to take, with every complete frame delivered at once; the code as written is `Codecs.Codec`.
- FileChunking.FileChunker.ChunkText: callbacks other than `Collector` are not objects here; `ChunkingLaws.CallbackDecides` and `ChunksReturned` describe the loop around any of them by its answers and the cursors it leaves. The time stamp of a chunk is never set by the source.
- Texts and buffers whose length exceeds what Qt can hold.
