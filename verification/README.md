# Verified model of the NFHTTP client stack and the SQLite shell code it ships

A Dafny 4.11 model of the parts of this repository that compute something difficult,
with proofs of what they promise. `dafny verify dfyconfig.toml` checks all of it.

## What is modelled

**Hash engines.** `KeccakF1600Step`, which does four rounds in place with lanes in moved
positions, is equal to Keccak-f[1600] as FIPS 202 defines it, and `SHA3Init`, `SHA3Update`
and `SHA3Final` compute SHA-3 of all bytes given, whatever their split into calls and
whichever of the word loop and the byte loop takes them. The `SHA256` class is equal to
FIPS 180-4 exactly below 2^29 bytes. The two specifications are `KeccakSpec.dfy`,
`Sha3Spec.dfy` and `Sha256Spec.dfy`; they follow the standards, not the code: the round
constants come from the shift register and the rotation counts from the walk of FIPS 202,
and the tables of the code are proved against them. What the operations on words do is
stated once more on single bits, as the standards have it (`KeccakBits.dfy`, `Sha3Bits.dfy`,
`Sha256Bits.dfy`), and the constants of SHA-256 are proved to be the digits of the cube and
square roots of the first primes (`Sha256Constants.dfy`).

**Printers and parsers of the shell.** The tagged stream of `sha3_query`, CSV, SQL string
expressions, C strings with the tokenizer of dot commands, the glob matcher, the schema
pretty-printer, the `.tables` columns, and quoted names. Loops over buffers stay loops over
arrays; each method is tied to a function of the text, and the theorems (round trips,
uniqueness, "only whitespace changes") are about those functions. What a pattern, an escape, a
tag or a quote means is also stated on the characters themselves, apart from the functions
that the methods use (`GlobText.dfy`, `DotText.dfy`, `QueryFormat.dfy`, `PrettyWords.dfy`).

**The client stack.** The coalescing client, the curl worker and the modifier are step
protocols: every stretch of code under a lock is one atomic step, and callers, responses,
callbacks and wake-ups interleave freely. The theorems hold after every run of steps. The
classes `ClientMultiRequestImplementation` and `ClientCurl` have the fields of the source,
and each of their locked regions is proved to be one step of the protocol. `ClientStack.dfy`
puts the coalescing client above the curl worker, and `StackProgress.dfy` shows that from every
reachable state any callback that was not cancelled can still run.

**The Cache-Control parser** of a response, with the exceptions of `std::stoi`.

## Files

| file | content |
|---|---|
| `LaneBits`, `KeccakSpec`, `KeccakTables`, `Keccak`, `Sha3Spec`, `Sha3` | SHA-3 |
| `KeccakBits`, `Sha3Bits` | the step mappings, and the order of bits and bytes, on single bits |
| `QueryStream`, `QueryFormat`, `QueryHash` | what `sha3_query` hashes, its format in letters, and its loops |
| `WordBits`, `Sha256Spec`, `Sha256` | SHA-256 and the hex wrapper |
| `Sha256Bits`, `Sha256Constants` | its functions on single bits, and its constants as roots of primes |
| `Coalescer`, `CoalescerClient`, `CurlWorker`, `CurlClient`, `ModifierStack`, `ClientStack`, `StackProgress` | the client stack |
| `Csv`, `SqlQuote`, `DotCommand`, `DotText`, `TablesLayout`, `Identifiers`, `ShellText` | the shell: printers, parsers, names |
| `Glob`, `GlobText`, `GlobComment` | the glob matcher, its patterns by their characters, and what its documentation promises |
| `Pretty`, `PrettyWords`, `PrettyUnchanged`, `PrettyLayout`, `PrettyQuotes` | the schema pretty-printer, what it leaves as it is, and quoted text |
| `CacheControl` | the response header |
| `ByteStrings`, `CStdio`, `CType`, `Division`, `Numerals`, `Options`, `Quoting`, `Sequences` | byte strings, output streams, small helpers |

Bytes are integers from 0 to 255, or `bv8` in the hashes; `Identifiers`, `ShellText` and
`CacheControl` use characters for bytes. `isspace`, `isalpha` and `isprint` are those of the
C locale. In `resolve_backslashes` and the pretty-printer, `e` names the place of the NUL
that ends the text.

## Where code and documentation differ

The model follows the code in each case.

- The comment at libraries/sqlite/shell.c:1204 calls the integers and floats of the hashed
  stream little-endian; the loops at lines 1286-1291 write the most significant byte first, as
  `QueryHash.PackWord` states for every word.
- The comment of `testcase_glob` says that `#` matches any number and that any span of whitespace
  matches any other. The code takes the longest number and the longest span, so `#5` does not match
  75 (`GlobComment.HashFiveDiffers`), and directly after a run with a `*` it takes both as the literal
  next character (`GlobComment.StarHashDiffers`). `GlobComment.ReadAsDocumented` gives the exact
  condition on the pattern. The comment leaves open how a class is written; there both readings
  follow the code, as `GlobText.ClassTakes` and `GlobText.UnclosedClass` state it.
- SHA-256 pads with a 64-bit length; the code keeps 32 bits. `Sha256.PaddingsAgree` shows that
  the two agree if and only if the message is shorter than 2^29 bytes.
- The pretty-printer does not keep quoted text, although its second pass tracks quotes. The first
  pass knows no quotes and makes two blanks in a literal one (`PrettyUnchanged.BlanksInQuotes`). The
  second tracks them in `cEnd`, but nothing it prints depends on that, so a comma in a literal at
  depth one breaks the line (`PrettyUnchanged.QuotedCommaBreaks`); `Pretty.Split`, which
  `Pretty.SplitLines` is proved equal to, has no such variable. `PrettyQuotes.QuotedTextKept` gives
  the exact condition under which the quoted parts of a statement are kept,
  `PrettyQuotes.PrintedAsItIs` that under which the whole statement is, and `Pretty.PrettyKeepsText`
  what is kept in every case.
- The comment of `resolve_backslashes` names `\s` for a space; the code leaves the letter s
  (`DotCommand.BackslashSIsALetter`). `DotCommand.ResolvedAsDocumented` gives the exact condition.
- Section 5.2 of RFC 7234 compares the names of directives without regard to case; the code compares
  them as they are (`CacheControl.NamesAreCaseSensitive`). `CacheControl.FlagInAnyCase` and
  `CacheControl.AgeInAnyCase` give the exact condition for each name, and
  `CacheControl.ReadInAnyCase` that for the whole header.
- Section 1.2.1 of RFC 7234 asks that ages too large be read as 2^31 or the largest number
  kept. `std::stoi` throws above 2^31 - 1, and also for `max-age` without a value;
  `CacheControl.ThrowsIff` gives the exact condition.

## Model

| member | source | states |
|---|---|---|
| Keccak.KeccakF1600Step | libraries/sqlite/shell.c:720-1035 | six groups of four unrolled rounds in place leave exactly Keccak-f[1600] of the old state (sections 3.2 to 3.4 of FIPS 202) |
| KeccakTables.RoundConstants | libraries/sqlite/shell.c:725-738 | the 24 constants of the table are those the linear feedback shift register of section 3.2.5 of FIPS 202 generates |
| KeccakTables.RhoOffsets | libraries/sqlite/shell.c:766-1034 | the rotation counts are the triangular numbers along the walk of section 3.2.2 of FIPS 202, and the walk reaches every lane but (0, 0) |
| Keccak.Block0 | libraries/sqlite/shell.c:778-788 | the block of five lanes of a round that starts with D0 replaces its five array places by one row of the next state and no other place |
| Keccak.Block1 | libraries/sqlite/shell.c:790-799 | the same for the second block of a round |
| Keccak.Block2 | libraries/sqlite/shell.c:801-810 | the same for the third block of a round |
| Keccak.Block3 | libraries/sqlite/shell.c:812-821 | the same for the fourth block of a round |
| Keccak.Block4 | libraries/sqlite/shell.c:823-832 | the same for the fifth block of a round |
| Keccak.Round0 | libraries/sqlite/shell.c:767-832 | the first round of a group carries layout 0 of a state to layout 1 of the state one round later |
| Keccak.Round1 | libraries/sqlite/shell.c:834-899 | the second round carries layout 1 to layout 2 |
| Keccak.Round2 | libraries/sqlite/shell.c:901-966 | the third round carries layout 2 to layout 3 |
| Keccak.Round3 | libraries/sqlite/shell.c:968-1033 | the fourth round carries layout 3 to layout 4 |
| Keccak.LayoutReturns | libraries/sqlite/shell.c:766-1034 | after four rounds every lane is back at its own place |
| Keccak.PlacesDiffer | libraries/sqlite/shell.c:767-1033 | in each of the four layouts different lanes have different places, so a write never hits a lane still to be read |
| Keccak.PlacesAgree | libraries/sqlite/shell.c:767-1033 | the place a lane is read from is the place its row is written to, which is why the rounds work in place |
| Keccak.MovedLane | libraries/sqlite/shell.c:778-832 | a lane xored with its column effect and rotated is what theta, rho and pi put at its new coordinates |
| Keccak.RoundRow | libraries/sqlite/shell.c:778-832 | the five chi expressions, with the constant for the first lane, are one row of a whole round |
| KeccakBits.RolMovesBits | libraries/sqlite/shell.c:764-764 | rotation by n places bit z at position z + n modulo 64, for every n and z (section 3.2.2 of FIPS 202) |
| KeccakBits.ThetaBits | libraries/sqlite/shell.c:767-776 | theta adds to bit (x, y, z) the parities of the columns (x - 1, z) and (x + 1, z - 1), as section 3.2.1 of FIPS 202 states it |
| KeccakBits.RhoBits | libraries/sqlite/shell.c:778-832 | rho moves bit z of a lane to z + offset modulo 64 |
| KeccakBits.PiBits | libraries/sqlite/shell.c:767-832 | pi takes bit (x, y, z) from (x + 3y, x, z) (section 3.2.3 of FIPS 202) |
| KeccakBits.ChiBits | libraries/sqlite/shell.c:783-788 | chi adds to each bit the product of the next two in its row, the first of them inverted (section 3.2.4) |
| KeccakBits.IotaBits | libraries/sqlite/shell.c:784-784 | iota adds the bits of the round constant to lane (0, 0) and changes no other bit (section 3.2.5) |
| Sha3.SHA3Context.constructor | libraries/sqlite/shell.c:1042-1065 | after SHA3Init the context is that of the empty message, and the rate is 200 - d/4 bytes for a d-bit digest |
| Sha3.SHA3Context.SHA3Update | libraries/sqlite/shell.c:1071-1103 | the state and nLoaded depend only on all bytes absorbed so far: not on how they were split into calls, nor on the alignment that selects the word loop |
| Sha3.SHA3Context.XorWord | libraries/sqlite/shell.c:1079-1086 | one step of the word loop absorbs eight bytes |
| Sha3.SHA3Context.XorByte | libraries/sqlite/shell.c:1089-1102 | one step of the byte loop absorbs one byte |
| Sha3.SHA3Context.Pad | libraries/sqlite/shell.c:1112-1121 | the two cases of the padding append the domain bits 01 and pad10*1 as bytes, also when one byte is left |
| Sha3.SHA3Context.CopyOut | libraries/sqlite/shell.c:1122-1124 | the bytes above the rate become a copy of the first nRate bytes |
| Sha3.SHA3Context.SHA3Final | libraries/sqlite/shell.c:1110-1126 | the digest bytes are SHA3-d of everything absorbed, for d in 224, 256, 384 and 512 (sections 4, 5.1 and 6.1 of FIPS 202) |
| Sha3Spec.RemIsMod | libraries/sqlite/shell.c:1097-1101 | nLoaded, which returns to 0 at a full block, is the number of bytes absorbed modulo the rate |
| Sha3.AbsorbByte | libraries/sqlite/shell.c:1089-1102 | xoring a byte at its place, with a permutation when the block is full, is absorbing one more byte |
| Sha3.AbsorbWord | libraries/sqlite/shell.c:1079-1086 | xoring a little-endian word at nLoaded/8 is absorbing its eight bytes |
| Sha3.PadWithZeros | libraries/sqlite/shell.c:1119-1119 | moving nLoaded to the last byte of the block absorbs zeros |
| Sha3.FinishedBlocks | libraries/sqlite/shell.c:1122-1125 | a message of whole blocks leaves exactly the sponge state of the specification |
| Sha3Bits.InitialBits | libraries/sqlite/shell.c:1042-1065 | every bit of the state before the first block is 0 |
| Sha3Bits.AbsorbedBits | libraries/sqlite/shell.c:1071-1103 | absorbing adds bit i of byte 8l + k of the block to bit 8k + i of lane l, and 0 past its end (section 3.1.2 and appendix B.1 of FIPS 202) |
| Sha3Bits.SqueezedBits | libraries/sqlite/shell.c:1122-1126 | bit i of byte 8l + k of the output is bit 8k + i of lane l |
| Sha3Bits.PaddingBits | libraries/sqlite/shell.c:1110-1121 | the padding is the bits 0, 1, 1, zeros and a last 1, fills the message to whole blocks, and is one block at most (section 6.1 of FIPS 202) |
| QueryStream.DecodeEncode | libraries/sqlite/shell.c:1261-1325 | a decoder recovers every sequence of statements, rows and typed values from the hashed stream |
| QueryStream.DistinctStreams | libraries/sqlite/shell.c:1261-1325 | different statements, rows or values never give the same stream |
| QueryStream.ColumnRoundTrip | libraries/sqlite/shell.c:1275-1322 | the segment of one column is read back with its type, whatever follows it |
| QueryStream.ReadWordRoundTrip | libraries/sqlite/shell.c:1286-1291 | the eight bytes of an integer or float give the word back |
| QueryStream.CountRoundTrip | libraries/sqlite/shell.c:1169-1182 | the decimal count of a header is read back |
| QueryFormat.ColumnFormat | libraries/sqlite/shell.c:1275-1322 | the segment of a column is N, I or F and eight bytes, or T or B, the size as an ASCII numeral, a colon and the bytes |
| QueryFormat.StatementFormat | libraries/sqlite/shell.c:1191-1214 | a statement is S, the size of its text, a colon and the text; a further row adds R, and a further column its segment |
| QueryFormat.WordBytes | libraries/sqlite/shell.c:1286-1291 | byte k of an integer or float holds bits 56 - 8k to 63 - 8k |
| QueryHash.PackWord | libraries/sqlite/shell.c:1281-1291 | x[] is the tag and the eight bytes of the word, most significant byte first |
| QueryHash.HeaderFits | libraries/sqlite/shell.c:1169-1182 | no header is cut by the 50-byte buffer |
| QueryHash.HashStepFormat | libraries/sqlite/shell.c:1169-1182 | adds tag, decimal count and colon to what is hashed |
| QueryHash.HashValue | libraries/sqlite/shell.c:1275-1322 | adds exactly the segment of a column to what is hashed |
| QueryHash.HashRow | libraries/sqlite/shell.c:1273-1323 | adds R and the segments of the columns in order |
| QueryHash.HashStatement | libraries/sqlite/shell.c:1261-1324 | adds the S segment and all rows in order |
| QueryHash.Sha3QueryFunc | libraries/sqlite/shell.c:1216-1328 | returns the digest of the stream of all statements, or the first error in the order of the code, or NULL, or the size error |
| QueryHash.DigestIff | libraries/sqlite/shell.c:1236-1265 | a digest is returned exactly when the size is missing or one of 224, 256, 384 and 512 and every statement prepares and is read-only; it has that many bits, and a missing size means 256 |
| QueryHash.FirstBadDecides | libraries/sqlite/shell.c:1242-1262 | the first statement that cannot be prepared or is not read-only decides which error it is |
| QueryHash.HashedInOrder | libraries/sqlite/shell.c:1242-1325 | without one the results are hashed in the order of the statements, and empty statements add nothing |
| QueryHash.Sha3Func | libraries/sqlite/shell.c:1137-1164 | returns SHA3 of the blob or text, NULL for NULL, and the size error before anything else |
| Sha256.RunSteps | source/sha256.cpp:71-82 | the 64 steps with their shifts of wv are the compression steps of section 6.2.2 of FIPS 180-4 |
| Sha256.FillSchedule | source/sha256.cpp:62-67 | w[] is the message schedule of the block |
| Sha256.SHA256.TransformBlock | source/sha256.cpp:61-85 | m_h becomes the compression of the old m_h with the block |
| Sha256.SHA256.Transform | source/sha256.cpp:53-87 | m_h is carried through block_nb blocks in order |
| Sha256.SHA256.constructor | source/sha256.cpp:89-100 | init() gives the initial hash value, an empty buffer and no bytes absorbed |
| Sha256.SHA256.Update | source/sha256.cpp:102-122 | m_len stays below 64 and blocks processed plus bytes buffered are the bytes given so far, for any split into calls |
| Sha256.SHA256.WritePadding | source/sha256.cpp:129-134 | both padding cases put mark, zeros and the 32-bit length after the buffered bytes |
| Sha256.SHA256.Final | source/sha256.cpp:124-139 | the digest of the bytes absorbed with the padding of the code, and SHA-256 of them (section 6.2 of FIPS 180-4) below 2^29 bytes; the rest of the buffer is untouched |
| Sha256.PaddingsAgree | source/sha256.cpp:129-134 | the 32-bit length gives the padding of section 5.1.1 of FIPS 180-4 if and only if the message has fewer than 2^29 bytes |
| Sha256.PaddingBytes | source/sha256.cpp:129-134 | the length and place of mark, zeros and length for every message length |
| Sha256.LastBlocks | source/sha256.cpp:129-135 | the buffered bytes with the padding are 64 bytes, or 128 when more than 55 are buffered, and processing them continues the blocks processed |
| Sha256.BlocksOfSum | source/sha256.cpp:102-122 | processing a concatenation of whole blocks is processing one part after the other |
| Sha256.HexRoundTrip | source/sha256.cpp:150-153 | the hex text of a digest gives the digest back, so equal texts mean equal digests |
| Sha256.Sha256Hex | source/sha256.cpp:141-154 | returns the hex text of SHA-256 of the input below 2^29 bytes |
| Sha256Constants.FirstPrimes | source/sha256.cpp:41-51 | the numbers the table is checked against are the first 64 primes: each is prime, they ascend from 2, and no prime lies between two of them |
| Sha256Constants.CubeRootDigits | source/sha256.cpp:41-51 | entry t of the table is the first 32 bits of the fractional part of the cube root of prime t (section 4.2.2 of FIPS 180-4) |
| Sha256Constants.SquareRootDigits | source/sha256.cpp:89-97 | the initial hash value holds those of the square roots of the first eight primes (section 5.3.3) |
| Sha256Bits.RotrAndShrBits | source/sha256.h:66-67 | bit j of a word turned right by n is bit j + n modulo 32, and of a shifted word bit j + n or 0 |
| Sha256Bits.SumBits | source/sha256.h:71-72 | each bit of the two large sigma functions is the sum of the three bits of section 4.1.2 of FIPS 180-4 |
| Sha256Bits.SigmaBits | source/sha256.h:73-74 | the same for the two small sigma functions |
| Sha256Bits.ChAndMajBits | source/sha256.h:69-70 | Ch chooses between the bits of y and z by that of x, and Maj is the majority of the three |
| Sha256Bits.AddIsModular | source/sha256.cpp:66-81 | the sum of two words is the low 32 bits of their sum in 33 bits |
| Sha256Bits.StepIsUndone | source/sha256.cpp:71-82 | a step loses nothing: the variables before it are those that the explicit inverse of step 3 of section 6.2.2 of FIPS 180-4 gives |
| Sha256Bits.ScheduleIsUndone | source/sha256.cpp:65-67 | any sixteen words of the schedule in a row determine the word before them, by the recurrence read backwards |
| Sha256Bits.BlockAdds | source/sha256.cpp:83-85 | taking what the 64 steps give from the new hash value leaves the old one |
| Sha256Bits.PackBits | source/sha256.h:82-86 | bit i of byte k is bit 8(3 - k) + i of the word packed from four bytes |
| Sha256Bits.UnpackBits | source/sha256.h:75-81 | and of the word that is unpacked into them |
| Sha256Bits.PaddingIs | source/sha256.cpp:129-134 | the padding of the specification is 0x80, the fewest zeros that fill a block, and eight bytes whose value is the length in bits (section 5.1.1 of FIPS 180-4) |
| Coalescer.ReachableInv | source/ClientMultiRequestImplementation.cpp:40-75 | the invariant holds in every state that any interleaving of calls, responses, callbacks and cancellations reaches |
| Coalescer.ExactlyOnePlace | source/ClientMultiRequestImplementation.cpp:40-75 | every subscribed callback is in exactly one of: waiting, collected, delivered, cancelled |
| Coalescer.NothingTwice | source/ClientMultiRequestImplementation.cpp:52-66 | no callback runs twice, no list holds one twice, and neither two in-flight entries nor the batches of two responses share one |
| Coalescer.SharedResponseInOrder | source/ClientMultiRequestImplementation.cpp:52-66 | callbacks that shared an entry get the same response, of their own key, in the order in which they subscribed |
| Coalescer.NobodyStranded | source/ClientMultiRequestImplementation.cpp:46-73 | every in-flight entry has subscribers and its own wrapped request, which is unanswered and not told to stop, also after late responses of cancelled requests |
| Coalescer.JoinsUnanswered | source/ClientMultiRequestImplementation.cpp:43-74 | performRequest, also from inside a callback, joins a request that is not yet answered |
| Coalescer.CancelledNeverRuns | source/ClientMultiRequestImplementation.cpp:103-120 | a callback removed by a cancel step before it is collected never runs afterwards |
| Coalescer.HistoryGrows | source/ClientMultiRequestImplementation.cpp:40-75 | deliveries, cancellations and subscriptions are only ever added |
| CoalescerClient.ClientMultiRequestImplementation.PerformRequest | source/ClientMultiRequestImplementation.cpp:40-75 | changes the map and the wrapped client as one Perform step of the protocol |
| CoalescerClient.ClientMultiRequestImplementation.Collect | source/ClientMultiRequestImplementation.cpp:53-63 | the locked region of the response callback is one Respond step: it returns the callbacks in order and erases the entry |
| CoalescerClient.ClientMultiRequestImplementation.RequestTokenDidCancel | source/ClientMultiRequestImplementation.cpp:103-120 | is one Cancel step: it removes the subscriber and stops the wrapped request with the last one |
| Coalescer.DistinctKeysIff | source/ClientMultiRequestImplementation.cpp:45-70 | in every state of a run the unanswered wrapped requests have different hashes, if and only if the run never makes a request for a hash of which a request told to stop is still unanswered |
| Coalescer.DistinctKeysBelow | source/ClientMultiRequestImplementation.cpp:45-70 | after a run of that kind two unanswered requests of the wrapped client have different hashes |
| Coalescer.NothingStopped | source/ClientMultiRequestImplementation.cpp:116-119 | a run in which nothing was told to stop is of that kind |
| Coalescer.CancelledKeyTwice | source/ClientMultiRequestImplementation.cpp:116-119 | cancelling a request and making it again gives the wrapped client a second live request with the same hash |
| CurlWorker.ReachableInv | source/ClientCurl.cpp:105-237 | the invariant holds in every state that any interleaving of callers, worker, callbacks and wake-ups reaches |
| CurlWorker.NeverSleepsOnWork | source/ClientCurl.cpp:227-231 | parked in the condition wait with the flag down, there are no handles |
| CurlWorker.NoLostWakeUp | source/ClientCurl.cpp:123-126 | parked with a handle present, a caller has still to notify, and that notify leads the worker to launch |
| CurlWorker.MessagesHaveHandles | source/ClientCurl.cpp:145-164 | a finished message always finds the handle of its request, so the lookup never inserts an empty one |
| CurlWorker.EachCallbackOnce | source/ClientCurl.cpp:180-191 | each callback runs at most once, with its own request, the one just logged, and no call is forgotten |
| CurlWorker.CallbackMayPerform | source/ClientCurl.cpp:185-191 | while a callback runs, with the lock released, and until the worker has the lock again, any caller may make a request for a hash with no handle, and in whatever run follows it is launched before the worker sleeps or parks |
| CurlWorker.LaunchedFirst | source/ClientCurl.cpp:142-236 | as long as the worker has a message counted, a transfer that is there goes into curl_multi_perform before the worker sleeps or parks |
| CurlWorker.NeverStuck | source/ClientCurl.cpp:131-237 | with a request pending, some step of the worker or of a caller about to notify is always possible |
| CurlClient.ClientCurl.PerformRequest | source/ClientCurl.cpp:109-125 | the locked part is one Add step of the protocol |
| CurlClient.ClientCurl.LaunchAll | source/ClientCurl.cpp:142-146 | the top of the loop is one PerformAll step |
| CurlClient.ClientCurl.ReadMessage | source/ClientCurl.cpp:147-195 | one pass of the message loop is one Read step: the handle is removed before its callback is handed out |
| CurlClient.ClientCurl.DecideWait | source/ClientCurl.cpp:197-236 | the end of the loop is one Decide step: it parks, and takes the flag down, exactly when nothing was read and nothing is active |
| Coalescer.CanBeDelivered | source/ClientMultiRequestImplementation.cpp:46-68 | from every reachable state a waiting or collected callback runs after one response of its own wrapped request at most, with no new request and no cancellation |
| ClientStack.ReachableInv | source/ClientMultiRequestImplementation.cpp:46-70 | with ClientCurl below, in every reachable state each handle belongs to an unanswered wrapped request of its hash, and each unanswered wrapped request has a handle or its response callback is running |
| ClientStack.WrappedRequestsAreNew | source/ClientMultiRequestImplementation.cpp:46-49 | in a run that never repeats a request told to stop before its answer, a request passed on has no handle in ClientCurl, so nothing but the lock holds it up |
| ClientStack.WaitingIsKnownBelow | source/ClientMultiRequestImplementation.cpp:46-70 | the wrapped request of a waiting callback is pending in ClientCurl, or its response callback is running |
| ClientStack.RestMeansDone | source/ClientCurl.cpp:227-231 | when the worker waits with the flag down, every callback of the coalescer has run or was cancelled |
| StackProgress.CallbackCanRun | source/ClientCurl.cpp:131-237 | from every reachable state of both clients together there is a way on, with no further call of the user, in which any given callback that was not cancelled runs |
| StackProgress.NextStep | source/ClientCurl.cpp:131-237 | each step of that way is possible and uses up the transfer, a message, the way to the message loop, or the work of the running callback |
| ModifierStack.ReachableInv | source/ClientModifierImplementation.cpp:38-97 | the invariant over modifier and coalescer holds in every reachable state |
| ModifierStack.CallbackOnceAfterRetries | source/ClientModifierImplementation.cpp:51-90 | a callback runs at most once, with the first response not judged to be retried, after one more wrapped request than retries |
| ModifierStack.CallNeverLost | source/ClientModifierImplementation.cpp:46-53 | a submitted call waits in the coalescer or is about to be delivered |
| ModifierStack.DeliveriesAreExpected | source/ClientModifierImplementation.cpp:51-53 | a delivery of the coalescer always reaches the call that waits for exactly that subscription |
| Csv.OutputCsv | libraries/sqlite/shell.c:1638-1667 | writes the NULL text, the plain field, or the field in quotes with quotes doubled, and then the separator if asked |
| Csv.WriteRow | libraries/sqlite/shell.c:1992-1997 | writes the fields with separators between them and the row separator |
| Csv.ImportCtx.AppendChar | libraries/sqlite/shell.c:3624-3634 | appends one byte and keeps all earlier ones, growing the buffer when needed |
| Csv.ImportCtx.ReadOneField | libraries/sqlite/shell.c:3649-3709 | leaves the field, its terminator, the unread input and the line count that the field reader's rules give |
| Csv.ImportCtx.ReadQuotedField | libraries/sqlite/shell.c:3659-3695 | the quoted branch, with its two characters of history |
| Csv.ImportCtx.ReadPlainField | libraries/sqlite/shell.c:3696-3706 | the unquoted branch, which drops one CR before the row separator |
| Csv.FieldRoundTrip | libraries/sqlite/shell.c:1638-1667 | any field that was written and is followed by separator, LF, CRLF or the end of the file is read back with its terminator, and nLine advances by the LF bytes consumed (section 2 of RFC 4180) |
| Csv.RowRoundTrip | libraries/sqlite/shell.c:1984-2000 | reading a written row field by field, also the last one of a file without a row end, gives the same fields, the right terminators and the number of LF bytes of the row |
| Csv.LastField | libraries/sqlite/shell.c:3673-3682 | the last field of a file without a row end is read back, its closing quote taken off |
| Csv.Unterminated | libraries/sqlite/shell.c:3686-3691 | a quoted field without its closing quote reaches to the end of the file, also when it ends in a quote and CR |
| Csv.StrayQuote | libraries/sqlite/shell.c:3667-3695 | a single quote inside a quoted field is kept with the character after it, unless that ends the field |
| Csv.AnyPlainField | libraries/sqlite/shell.c:3696-3706 | a field that starts with no quote is kept up to separator, row end or end of file, but for a CR in front of the row end |
| Csv.NeedCsvQuoteTable | libraries/sqlite/shell.c:1613-1630 | the bytes that make a field quoted are those marked in the table of the code, row by row |
| SqlQuote.OutputQuotedString | libraries/sqlite/shell.c:1497-1541 | prints the expression of the string, for every state of inQuote and bStarted |
| SqlQuote.QuotedEvaluatesToItself | libraries/sqlite/shell.c:1497-1541 | the printed expression is well formed and evaluates to the string, for an evaluator that reads char(), the decimal digits of its argument and string literals by their characters |
| SqlQuote.PrintedOnOneLine | libraries/sqlite/shell.c:1497-1541 | no line end is printed, and a string without quotes and line ends is printed between quotes |
| SqlQuote.WritePart | libraries/sqlite/shell.c:1507-1523 | one pass of the loop up to a quote or the end of a run |
| SqlQuote.WriteLineEnds | libraries/sqlite/shell.c:1531-1536 | prints a run of line ends as char() calls joined by &#124;&#124; |
| DotCommand.OutputCString | libraries/sqlite/shell.c:1546-1572 | prints the string in double quotes with C escapes |
| DotCommand.ResolveBackslashes | libraries/sqlite/shell.c:3409-3451 | rewrites the string in place to its resolved form, never writing past what it has read, and touches nothing outside it |
| DotCommand.ReadUnit | libraries/sqlite/shell.c:3414-3447 | reads one plain character or escape, with octal values cut to a char |
| DotCommand.Tokenize | libraries/sqlite/shell.c:4486-4506 | the positions returned are C strings that hold the tokens of the line, at most 50, quoted or not, with escapes resolved outside single quotes |
| DotCommand.FindToken | libraries/sqlite/shell.c:4489-4502 | the text of a token ends at the matching quote that is not escaped, at whitespace, or at the end of the line |
| DotCommand.EndToken | libraries/sqlite/shell.c:4496-4504 | ends the token by a NUL and resolves it in place without touching the rest of the line |
| DotCommand.EscapeResolves | libraries/sqlite/shell.c:3409-3451 | resolving the escapes of output_c_string gives back the string |
| DotCommand.ArgumentsRoundTrip | libraries/sqlite/shell.c:4486-4506 | a list of C-quoted strings after a command is split into exactly those strings |
| DotCommand.DotCommandRoundTrip | libraries/sqlite/shell.c:4486-4506 | a dot command built from C-quoted strings gives its name and exactly those arguments if and only if there are fewer than 50; of more, the first 49 |
| DotCommand.NulFreeIsWhole | libraries/sqlite/shell.c:4486-4506 | a NUL-free token is the whole C string |
| DotCommand.ArgumentLineHasNoNul | libraries/sqlite/shell.c:1546-1572 | a line of C-quoted NUL-free strings holds no NUL |
| DotCommand.PrintAndTokenize | libraries/sqlite/shell.c:4486-4506 | strings printed by output_c_string into a line after a command are found again: the C strings at the positions of azArg are the name and the strings, up to 50 |
| DotCommand.ResolvedAsDocumented | libraries/sqlite/shell.c:3394-3451 | a text is resolved as the comment says if and only if none of its escapes is a backslash and s |
| DotCommand.BackslashSIsALetter | libraries/sqlite/shell.c:3403-3403 | a backslash and s give the letter s, and not the space that the comment names |
| DotText.LetterEscape | libraries/sqlite/shell.c:3393-3435 | the ten escapes of the table have the meanings the comment gives |
| DotText.OctalEscape | libraries/sqlite/shell.c:3436-3446 | one to three octal digits, as many as there are, stand for their value modulo 256 |
| DotText.OtherEscape | libraries/sqlite/shell.c:3414-3447 | a backslash before any other character is dropped, and at the end it stays |
| DotText.PrintedText | libraries/sqlite/shell.c:1546-1572 | output_c_string prints printable characters only, and text without quotes and backslashes as it is |
| DotText.ArgumentsAreRead | libraries/sqlite/shell.c:4486-4506 | words, texts in single quotes and C-quoted strings, with any whitespace in front of each, are read as they are meant: escapes are resolved except in single quotes |
| Glob.TestcaseGlob | libraries/sqlite/shell.c:4123-4195 | returns true exactly when the text, up to trailing whitespace, matches the pattern in the sense of trying every suffix for a star; terminates on every pattern |
| Glob.MatchStar | libraries/sqlite/shell.c:4133-4152 | collapsing runs of * and ? agrees with trying every suffix |
| Glob.SearchLiteral | libraries/sqlite/shell.c:4145-4152 | jumping to the next occurrence of the literal after a star misses no match |
| Glob.SearchClass | libraries/sqlite/shell.c:4139-4143 | the separate loop for [ after a star misses no match |
| Glob.MatchClass | libraries/sqlite/shell.c:4155-4183 | ranges, ^, ] first and - last decide membership of the character as the items of the class say |
| GlobText.ClassTakes | libraries/sqlite/shell.c:4155-4183 | a class as it is written, with ^ or not, with a ] first or not, of characters and ranges, takes one character: one of those written, or with ^ any other |
| GlobText.SmallClasses | libraries/sqlite/shell.c:4155-4183 | [x] takes x, [^x] any character but x, and [a-b] those from a to b |
| GlobText.UnclosedClass | libraries/sqlite/shell.c:4170-4183 | a class without ] matches nothing |
| GlobText.LiteralTakes | libraries/sqlite/shell.c:4153-4191 | any other character takes itself, and ? takes one character |
| GlobText.StarTakes | libraries/sqlite/shell.c:4133-4152 | * takes any text in front of a pattern that does not start with *, ?, # or whitespace |
| GlobText.SpaceTakes | libraries/sqlite/shell.c:4129-4194 | a run of whitespace takes a whole run of whitespace, and at the end of the pattern any whitespace is ignored |
| GlobText.HashTakes | libraries/sqlite/shell.c:4184-4188 | # takes an optional sign and a whole run of digits, of which there must be one |
| Glob.StarThenOne | libraries/sqlite/shell.c:4134-4136 | * before ? matches the same texts as ? before * |
| GlobComment.ReadAsDocumented | libraries/sqlite/shell.c:4103-4195 | a pattern matches the same texts as its documentation says if and only if no text can match it, or no # or whitespace follows a run with a * directly and, leaving stars aside, no # stands before something that may take a digit and no whitespace before something that may take whitespace |
| GlobComment.LongestIsAny | libraries/sqlite/shell.c:4128-4132 | taking the longest number and the longest span of whitespace misses no match when nothing after them may take one character more |
| GlobComment.GreedyWitness | libraries/sqlite/shell.c:4184-4188 | otherwise some text, one character for each part of the pattern, should match and does not |
| GlobComment.OddWitness | libraries/sqlite/shell.c:4133-4152 | with a # or whitespace directly after a run with a *, some text should match and does not |
| GlobComment.PlainIsDocumented | libraries/sqlite/shell.c:4103-4195 | a pattern without # and whitespace outside classes matches the same texts as its documentation says |
| GlobComment.HashFiveDiffers | libraries/sqlite/shell.c:4184-4188 | #5 does not match 75, which its documentation says it does |
| GlobComment.StarHashDiffers | libraries/sqlite/shell.c:4133-4152 | *# does not match 7, which its documentation says it does |
| Pretty.ShowPretty | libraries/sqlite/shell.c:1868-1927 | prints nothing for NULL, views and triggers as they are, and other statements compacted and cut into lines |
| Pretty.CompactInPlace | libraries/sqlite/shell.c:1884-1895 | the first pass, in place: the write index never passes the read index and text not yet read stays intact |
| Pretty.SplitLines | libraries/sqlite/shell.c:1896-1922 | the second pass, in place: what was printed, the text left in the buffer and the unread text always make up the same output |
| Pretty.SplitChar | libraries/sqlite/shell.c:1897-1921 | one character of the second pass; quotes that are tracked in cEnd do not change the output |
| Pretty.PrintSchemaLineN | libraries/sqlite/shell.c:1741-1746 | prints the text up to n and leaves the buffer as it was |
| Pretty.PrintSchemaLine | libraries/sqlite/shell.c:1734-1740 | adds IF NOT EXISTS after CREATE TABLE before a quoted name, and nothing else |
| Pretty.PrettyKeepsText | libraries/sqlite/shell.c:1883-1926 | leaving whitespace aside, the chunks are the input, and the output is the chunks, each as printSchemaLine prints it, and a semicolon; that is the input and a semicolon exactly when no line starts with CREATE TABLE and a quoted name |
| PrettyUnchanged.CompactUnchangedIff | libraries/sqlite/shell.c:1884-1895 | the first pass leaves a text as it is if and only if its whitespace already stands as the first pass leaves it |
| PrettyUnchanged.BlanksInQuotes | libraries/sqlite/shell.c:1884-1895 | a CREATE TABLE with a default of two blanks in quotes is printed with one blank |
| PrettyUnchanged.QuotedCommaBreaks | libraries/sqlite/shell.c:1896-1922 | a long CREATE TABLE with the default 'x,y' gets a line break inside the literal |
| PrettyUnchanged.UnchangedIff | libraries/sqlite/shell.c:1883-1926 | a statement whose whitespace is as the first pass leaves it, or that stays on one line, is printed as it is if and only if both are so and it gets no IF NOT EXISTS |
| PrettyUnchanged.ThreeLinesStay | libraries/sqlite/shell.c:1896-1922 | a CREATE TABLE on three lines, laid out as the second pass does it, is printed as it is although the first pass changes it |
| PrettyQuotes.PrintedAsItIs | libraries/sqlite/shell.c:1883-1926 | any statement is printed as it is if and only if, when its compacted text stays on one line, the first pass would not change it and it does not start with CREATE TABLE and a quote; otherwise, every gap between its characters is the one the printer puts there and no line of it starts with CREATE TABLE and a quote |
| PrettyQuotes.QuotedTextKept | libraries/sqlite/shell.c:1883-1926 | the quoted parts of any statement are printed as they are if and only if all quotes are closed, every stretch of whitespace in them is the gap the printer puts there, and no line that starts inside quotes starts with CREATE TABLE and a quote |
| PrettyQuotes.QuotesKeptIff | libraries/sqlite/shell.c:1884-1922 | leaving IF NOT EXISTS aside, the quoted text is the same exactly when the whitespace in quotes is |
| PrettyQuotes.PrintedQuotes | libraries/sqlite/shell.c:1734-1746 | IF NOT EXISTS added outside of quotes leaves the quoted text as it is, and added inside makes it longer |
| PrettyQuotes.InsertedIs | libraries/sqlite/shell.c:1896-1922 | the lines that get IF NOT EXISTS are those that start, after the breaks read off the statement, with CREATE TABLE and a quote |
| PrettyLayout.CompactIs | libraries/sqlite/shell.c:1884-1895 | the first pass is the left-to-right replacement of each stretch of whitespace by nothing or its first character |
| PrettyLayout.SplitBody | libraries/sqlite/shell.c:1896-1922 | the second pass puts after each character the gap that depth, the lines broken so far and the whitespace of the input decide |
| Pretty.CompactKeepsText | libraries/sqlite/shell.c:1884-1895 | the first pass changes only whitespace |
| Pretty.CompactIsTidy | libraries/sqlite/shell.c:1884-1895 | after the first pass whitespace stands alone, not at the ends, not after ( and not before a parenthesis |
| Pretty.CompactTwice | libraries/sqlite/shell.c:1884-1895 | a second first pass changes nothing |
| Pretty.SplitKeepsText | libraries/sqlite/shell.c:1896-1922 | the chunks of the second pass, one after the other, change only whitespace |
| Pretty.LinesBreakAtDepthOne | libraries/sqlite/shell.c:1896-1922 | every line but the last ends inside exactly one open parenthesis |
| PrettyWords.InsertedWords | libraries/sqlite/shell.c:1734-1740 | IF NOT EXISTS stands between CREATE TABLE and the quote, and a line that does not start with these is printed as it is |
| PrettyWords.ViewsAndTriggers | libraries/sqlite/shell.c:1876-1882 | a statement that starts with CREATE VIEW or CREATE TRIG in any case of letters is printed as it is, and any other by the two passes |
| PrettyWords.ShortStatement | libraries/sqlite/shell.c:1896-1924 | a statement of at most 78 characters, its whitespace compacted, stays on one line |
| TablesLayout.PrintTables | libraries/sqlite/shell.c:6229-6249 | prints the lines of the column layout |
| TablesLayout.EveryIndexPrinted | libraries/sqlite/shell.c:6240-6248 | every result is printed, column by column in order |
| TablesLayout.NoIndexTwice | libraries/sqlite/shell.c:6240-6248 | no result is printed at two places |
| TablesLayout.NamesOnALine | libraries/sqlite/shell.c:6237-6242 | a line shows at least one and at most nPrintCol names |
| TablesLayout.LineWidth | libraries/sqlite/shell.c:6237-6248 | a line takes at most 78 columns when maxlen + 2 <= 80, and one name otherwise |
| TablesLayout.LineShowsIndices | libraries/sqlite/shell.c:6242-6247 | a line is the padded names of its indices in order |
| TablesLayout.LayoutIsTight | libraries/sqlite/shell.c:6233-6239 | columns are as wide as the longest name, one more would not fit in 80 characters, and with one row less the names would not fit |
| TablesLayout.NameInField | libraries/sqlite/shell.c:6241-6245 | a name stands at the start of its line or after two spaces, and is filled up with spaces |
| ShellText.ShellText.AppendText | libraries/sqlite/shell.c:587-624 | with allocation succeeding n < nAlloc and z[n] == 0, earlier text is unchanged, and the argument is added, quoted by doubling if asked |
| ShellText.ShellText.LengthNeeded | libraries/sqlite/shell.c:592-598 | the length computed before the buffer grows is the length of what is added |
| ShellText.ShellText.Grow | libraries/sqlite/shell.c:600-607 | keeps the text and leaves room for it |
| ShellText.ShellText.PutQuoted | libraries/sqlite/shell.c:609-618 | writes quote, doubled text and quote at the end |
| ShellText.ReadBodyOfDoubled | libraries/sqlite/shell.c:609-618 | quoted text is read back to the closing quote, whatever follows that is not a quote |
| ShellText.NameRoundTrip | libraries/sqlite/shell.c:634-674 | a name written with the quote that quoteChar asks for is read back as that name, and never as a bare keyword |
| Identifiers.QuoteChar | libraries/sqlite/shell.c:634-674 | asks for a quote exactly for keywords, in any case of letters, and for names that are not plain identifiers |
| Identifiers.WordCharacters | libraries/sqlite/shell.c:656-660 | letters are the 52 of ASCII, and the characters of a plain name these, the digits and the underscore |
| Identifiers.Search | libraries/sqlite/shell.c:661-672 | the binary search finds a word if and only if the table holds it, ignoring case |
| Identifiers.KeywordsAscend | libraries/sqlite/shell.c:636-655 | the keyword table is in ascending order for sqlite3_stricmp |
| Identifiers.CompareTransitive | libraries/sqlite/shell.c:665-665 | sqlite3_stricmp orders names transitively |
| Identifiers.CompareIsZero | libraries/sqlite/shell.c:665-666 | it returns 0 exactly for names equal up to the case of letters |
| CacheControl.ParseHeader | source/ResponseImplementation.cpp:119-155 | the flags and ages of the directives found in the header, or the exception of std::stoi |
| CacheControl.ReadTokens | source/ResponseImplementation.cpp:125-136 | the map holds for each name its last value among the tokens |
| CacheControl.DirectivesRoundTrip | source/ResponseImplementation.cpp:125-136 | well-formed directives separated by commas, with whitespace anywhere, are read back in order |
| CacheControl.HeaderMeaning | source/ResponseImplementation.cpp:138-154 | a printed header gives the presence of each flag and the last values of max-age and s-maxage (section 5.2 of RFC 7234) |
| CacheControl.OrderDoesNotMatter | source/ResponseImplementation.cpp:138-154 | the order of directives with different names does not matter |
| CacheControl.StoiOfDecimal | source/ResponseImplementation.cpp:138-145 | a numeral with a sign or none, any leading zeros and anything but a digit after it is read as its number within int; outside std::stoi throws |
| CacheControl.NoNumberIff | source/ResponseImplementation.cpp:138-145 | std::stoi finds no number exactly when no digit stands first, or second after a sign |
| CacheControl.StripIs | source/ResponseImplementation.cpp:129-129 | a token is left as the text of which it is a copy with whitespace put in anywhere |
| CacheControl.EqualsAtTheEdge | source/ResponseImplementation.cpp:130-135 | an equals sign at the end of a token belongs to its name, and at the start the name is empty |
| CacheControl.ReadInAnyCase | source/ResponseImplementation.cpp:119-155 | the outcome is that of names compared in any case of letters (section 5.2 of RFC 7234) when both ages and all seven flags are so spelled, and, where neither reading throws, only then |
| CacheControl.FlagInAnyCase | source/ResponseImplementation.cpp:146-152 | a flag is read as in any case of letters if and only if it is there in lower case or missing in every case |
| CacheControl.AgeInAnyCase | source/ResponseImplementation.cpp:138-145 | an age is read as in any case of letters if and only if the last directive of its name in any case gives the same as the last in lower case, or 0 when there is none in lower case |
| CacheControl.NamesAreCaseSensitive | source/ResponseImplementation.cpp:146-154 | No-Store sets no flag, although section 5.2 of RFC 7234 compares directive names without regard to case |
| CacheControl.ThrowsIff | source/ResponseImplementation.cpp:138-145 | an exception leaves the function exactly when the last value of max-age or s-maxage is not a number within int |

## Left out

- Sockets, threads, libcurl, NSURLSession, cpprestsdk, SQLite itself and file input and output: streams are byte sequences, result sets are sequences, the curl multi handle is a set of running transfers and a queue of messages, and locks make their regions atomic.
- The caching client and its database, which are not in use, and the request side of Cache-Control.
- Request hashing and JSON: the hash of a request is a fixed key, and a response carries the key its request was issued under.
- CoalescerClient.ClientMultiRequestImplementation.RequestTokenDidCancel: requires that the identifier of the token is in flight, which the source assumes without a check.
- CurlClient.ClientCurl.PerformRequest: requires that no live request has the same hash, because the source overwrites the handle of the first. `Coalescer.DistinctKeysIff` says exactly in which runs the coalescer keeps to this, `ClientStack.WrappedRequestsAreNew` draws the conclusion for the handles of the curl client, and `Coalescer.CancelledKeyTwice` shows a run in which it does not; the destructor, `_is_terminated` and cancellation (which does nothing) are not modelled.
- CurlClient.ClientCurl.DecideWait: how long `usleep` and `select` wait is not modelled; `select` keeps the lock, as in the source, so it is part of the step.
- ModifierStack.CallbackOnceAfterRetries: the modifiers continue exactly once, the response modifier passes on the response it was given, and nothing is cancelled; the identifier and token maps, which hold weak references, are not modelled, so the continuations of performRequest are steps over values and not methods of a class.
- ClientStack.ReachableInv: calling performRequest of the coalescer and, inside it, of ClientCurl is one step, which waits for the lock of the worker; the modifiers are not part of this system but of `ModifierStack`.
- StackProgress.CallbackCanRun: says that a way on exists, not that every run takes it, because transfers may go on for ever and the scheduling of threads is not modelled.
- PrettyQuotes.QuotedTextKept: quotes are those of SQL strings and names; comments are not told apart, so a quote character in a comment opens a quoted part.
- Clients that were destroyed while a callback was under way (`weak_this.lock()` fails).
- Sha3.SHA3Context.SHA3Update: the big-endian build and `ixMask` are not modelled; a call is below 2^32 - 7 bytes, where the loop variable of the source wraps.
- Sha256.SHA256.Update: a call is below 2^31 bytes, where the shift of a signed int in `transform` overflows.
- QueryHash.Sha3QueryFunc: texts and blobs have lengths within int; the messages of errors are not modelled, only which error it is.
- Csv.RowRoundTrip: column separators are one byte long and not a quote, CR or LF; fields are not NULL and hold no NUL; the row separator of the reader is LF. Interrupts and messages on stderr are not modelled.
- SqlQuote.QuotedEvaluatesToItself: evaluation is that of string literals, `char()` of one number below 128, and `||`, which is more than what is printed.
- ShellText.ShellText.AppendText: allocation succeeds, and sizes stay within int.
- TablesLayout.LineWidth: names are below 2^30 bytes, the limit of `strlen30`; columns are counted in bytes, as printf does.
- CacheControl.DirectivesRoundTrip: quoted values that hold commas or whitespace are not well-formed directives here, because the source takes them apart.
- Build scripts, option handling, help text, timers, statistics and the other commands of the shell.
