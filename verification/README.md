# Verified models of ODPI-C

ODPI-C is the C library through which the Swift driver talks to Oracle's client library (OCI). This
project models the parts of it that are hard to get right and proves what they are for. It is checked
with `dafny verify dfyconfig.toml` (Dafny 4.11).

## What is modelled

**Numbers** (`Decimals`, `OracleNumber`, `OracleNumberParser`, `NumberCodec`, `NumberOrder`, `NumberText`,
`NumberTextParser`, `NumberFormat`, `NumberConversion`). Text goes through a parser into a sign, a decimal
point index and digits, from there into Oracle's NUMBER bytes, and back into text, in single-byte and in
UTF-16 character sets. The loops of the C code, with its buffers, are methods; each is proved against a
function, and the functions are proved to have the meaning they are for: the bytes denote exactly the value
of the text, comparing bytes compares numbers, and text, decimals and bytes are inverse to each other. What a text
denotes, and which texts are rejected with which error, is stated without the functions of the parser.

**The handle pool and the handle list** (`HandlePool`, `HandleList`). The ring of error handles and the slot
allocator are classes over arrays. The ring is proved to be a queue as long as it never fills, and what
happens when it does is stated exactly, as is when a request fails. The slot allocator keeps a map from slots to handles.

**Lifetimes of handles** (`Lifetimes`, `LifetimeCounts`, `LifetimeInvariant`, `LifetimeSteps`, `LifetimeKeeps`,
`LifetimeCalls`, `LifetimeRuns`, `LifetimeLists`, `LifetimeOwners`, `LifetimeOpen`, `LifetimeSafety`,
`LifetimeSettles`, `LifetimeCloses`). In threaded mode, session pools, connections, object types, LOBs and objects are
created, shared, closed and released by any number of threads at once. A step is what happens between two acquisitions of the environment's mutex, or one access
to memory that other threads see; threads hold stacks of calls in progress, and steps interleave in any order. The
invariant relates each handle to the numbers of calls that stand at each point of the code for it. The lists that a
connection keeps of its LOBs and objects are proved exact as long as no user closes the connection. The main theorems,
about every state of every run, are in `LifetimeSafety`. What a close has brought about when it ends is in
`LifetimeCloses`, with `LifetimeSettles` for the steps: whatever other threads do, the session of a connection ends only
after everything in its lists was closed, and the close of a LOB frees its locator.

**Reference counts in a single thread** (`RefCounts`). The same counts in the form the code has without
threads: a release runs the whole cascade of free procedures before it returns. The cascade terminates, and
frees exactly the handles that the program can no longer reach.

**Pooled sessions** (`SessionPool`). Acquiring pings idle sessions and drops bad ones in a loop; closing stamps
the session with the time. OCI's pool is a set of idle sessions; what it answers to each call is an input, on which
every outcome is stated to depend. The loop
terminates within one round more than there are stamped idle sessions, and over all runs of acquires and
closes, including closes that fail and are tried again or do not check for errors, sessions are pinged when they
have to be, dropped only for a reason, and dead ones never come back.

**JSON** (`JsonTrees`, `JsonMeaning`, `JsonNodes`, `JsonWriter`). Nodes are written into OCI's document object model and read
back from it, in batches and with arrays allocated for them. Reading gives back what was written if and only
if field names are distinct and short and numbers are spelled as the driver prints them. Which trees can be written,
which documents can be read, and what stands in the other then, is stated side by side in `JsonMeaning`, for writing and
for reading on its own. However far reading
got, freeing releases exactly the arrays it allocated. Where the code writes behind a buffer or frees a pointer that
is none, the models have an outcome that says so, and the condition for it.

**Names of SODA collections** (`CollectionNames`). Names of any number of collections are collected in one
growing buffer. Each name is found at its place, and the buffer is large enough if and only if no name needs more than
one growth beyond what the names in front of it need; names of at most 32768 bytes never do.

**Timestamps as milliseconds** (`Timestamps`). The split into day, hour, minute, second and fraction and its
inverse, over exact reals.

`CArithmetic` holds the C integer operations that differ from the mathematical ones, `Wrappers` the result
types.

## What the models showed

- The parser of number strings checks the number of digits before the encoder pads them. A number with forty digits
  and an odd point index therefore takes 23 bytes, one more than an OCI number has; it overruns an OCI number that has
  no more room (`NumberConversion.ToOracleNumberFromText`, with `NumberConversion.FortyDigitsOverrun` as an input) and
  is rejected when it is read back (`NumberCodec.DecodeInvertsEncode`). Byte order is numeric order for these numbers
  as well, except for negative ones whose 38th and 39th digits are not both zero
  (`NumberOrder.ByteOrderIsNumericOrder`); each of those is on the wrong side of a number that fits
  (`NumberOrder.DisorderedPartner`, `NumberOrder.RightlyPlacedExactly`).
- Contrary to its comments, the parser accepts texts without any digits (`-`, `.`, `e5`), which denote zero, and
  raises an error for numbers that are too small instead of turning them into zero. The model does what the code
  does.
- The point of a zero stands where its digits end: a zero with more than 129 decimals, or with an exponent to match, is
  called not representable (`NumberText.ZeroPoint`, `NumberText.RejectedText`).
- A corrupt OCI number can have more digits than the buffer they are parsed into: a mantissa byte that stands
  for 100 to 109 gives three (`OracleNumberParser.OverrunExactly`, with `OracleNumberParser.HundredsOverrun` as an
  input). Larger ones are printed with characters that are not digits.
- When every slot of the handle pool holds an idle handle, the ring looks empty: all idle handles are lost.
  `HandlePool.LossExactly` and `HandlePool.LossOverRuns` say exactly when, also after allocations have failed,
  `HandlePool.LostAtMostOnce` that it happens once in the life of a pool, and `HandlePool.AllIdleHandlesLost` is a run
  from the start of a pool.
- The comment on temporary buffers for JSON numbers says that a buffer takes as many numbers as fit. The
  condition is the other way round and no buffer is ever marked as used, so every number gets a buffer of its
  own. The array of these buffers is believed to be larger before it has been enlarged: after a failure, the next
  number is written behind it (`JsonNodes.Json.NumberAsText`).
- The buffer of the top node of a JSON handle is not cleared when its value is read again. An empty array or object
  takes what is there for its first pointer: if the last bytes in the buffer were a string, a raw value or a number as
  text with a length other than zero, that length is freed as if it were a pointer, the next time the handle is read or
  freed. `JsonNodes.Json.GetValue` and `JsonNodes.WordLeftExactly` say exactly when,
  `JsonNodes.StringThenEmptyArray` is a run. Numbers that cannot be converted leave the length 172 behind.
- The buffer for collection names grows once for a name that does not fit, however long the name is.
  `CollectionNames.RoomExactly` says exactly when it overruns, `CollectionNames.LongNameOverruns` gives an input.
- A close of a pooled connection that drops the session, or that the free procedure makes, does not check for errors.
  The session may then keep an older stamp than the time of that close (`SessionPool.OldStampStays`);
  `SessionPool.StampIsLastClose` says when the stamp is of the last close. An error of storing the stamp does not end a
  close, but if it says that the session is dead, the session is dropped (`SessionPool.Connection.Close`).
- An object stays in the list of its connection without an instance only if a user closes the connection and its
  indicator cannot be freed then. The free procedures do not check for errors, so that on a connection no user has
  closed the list is exact, and empty when the connection goes (`LifetimeSafety.ListHoldsObjects`,
  `LifetimeSafety.ListsAreEmptyAtTheEnd`).

## Assumptions about what is outside

Calls into OCI succeed or fail arbitrarily, in some models by answers that are inputs, and have small contracts: a
session that OCI gives out is idle or new, an answer to the contrary counting as a refusal, which is what `SessionPool.OneHolder` and `SessionPool.DeadStaysAway` rest on next to the driver's code; a
document gives out its children in order, 64 at a time, and a field that is put into an object
replaces the one with the same name; an OCI resource is gone after the call that frees it. The unchecked calls
that save, change and restore the network settings of a session around a ping, and drop it if it does not answer,
succeed. An error that a close of a pooled connection checks for says by itself whether the session is dead.
Allocations fail
arbitrarily, for JSON values unless memory is said to be plentiful, except in the lifetime model, where the functions of OCI and the error handles they need are there as
well: a call whose status is not checked cannot fail. Clocks show any time. Clients release only references and handles
they hold. Identifiers of handles stand for their addresses and are never issued again; the pointers to LOBs
and objects that the close of a connection reads from a list without the mutex are such identifiers, so that
its check of a handle that was freed in between is defined. A thread passes a reference on to another by adding
one for it, and an object type's reference to the type of its elements is an added one as well. A run of the lifetime
model is one in which the close of a connection by a user does not go on after a close of an entry that it made has
failed; it can also fail by itself, as statements can.

## Model

| member | source | states |
|---|---|---|
| OracleNumber.EncodedSize | Sources/ODPIC/src/dpiData.c:467-525 | an encoded decimal fits the 22 bytes of an OCI number if and only if its padded digits are at most forty |
| NumberCodec.KnownEncodings | Sources/ODPIC/src/dpiData.c:467-525 | the bytes of 0, 1, -1 and 123.45 |
| OracleNumber.EncodeIsBytes | Sources/ODPIC/src/dpiData.c:485-523 | length, exponent, mantissa and sentinel bytes are bytes, no truncation takes place |
| OracleNumber.PackPair | Sources/ODPIC/src/dpiData.c:508-517 | one step of the mantissa loop writes the next base-100 digit, complemented for negative numbers, and consumes its digits |
| OracleNumber.WriteMantissa | Sources/ODPIC/src/dpiData.c:505-518 | the mantissa loop writes the pairs of the padded digits, including a leading zero that is not stored, and nothing else |
| OracleNumber.PadDigits | Sources/ODPIC/src/dpiData.c:467-479 | point index and digits are padded to an even index and an even number of digits |
| OracleNumber.WriteHeader | Sources/ODPIC/src/dpiData.c:485-503 | length and exponent byte for either sign, with C's division and narrowing |
| OracleNumber.WriteNonzero | Sources/ODPIC/src/dpiData.c:481-523 | header, mantissa and sentinel together are the encoding, and bytes behind it are untouched |
| OracleNumber.WriteNumber | Sources/ODPIC/src/dpiData.c:467-525 | from the parsed digits, the buffer starts with the encoding of the decimal and is unchanged behind it, or overruns, which for an OCI number is if and only if the decimal does not fit |
| OracleNumber.WriteZero | Sources/ODPIC/src/dpiData.c:488-497 | zero is the length byte 1 and the byte 128 |
| OracleNumberParser.ReadPair | Sources/ODPIC/src/dpiUtils.c:473-498 | one mantissa byte gives its digits, without a leading zero of the first and a trailing zero of the last, and moves the point |
| OracleNumberParser.ReadMantissa | Sources/ODPIC/src/dpiUtils.c:465-500 | the mantissa loop gives all digits and the final point index, or overruns the buffer of digits |
| OracleNumberParser.ReadExponent | Sources/ODPIC/src/dpiUtils.c:440-448 | sign and point index from the exponent byte, with 8-bit wrap-around |
| OracleNumberParser.ReadNumber | Sources/ODPIC/src/dpiUtils.c:423-503 | the parser of OCI numbers, with its error, the special one-byte values and the sentinel, computes Decode, or overruns the buffer if and only if there are more digits |
| OracleNumberParser.OverrunExactly | Sources/ODPIC/src/dpiUtils.c:465-500 | when a number has more than forty digits, by the number of mantissa bytes that give three digits and the zeros dropped at both ends |
| OracleNumberParser.HundredsOverrun | Sources/ODPIC/src/dpiUtils.c:465-500 | a number of 22 bytes that has more than forty digits |
| NumberCodec.DecodeInvertsBody | Sources/ODPIC/src/dpiData.c:467-523 | undoing complement, sentinel and pairing gives back sign, point index and digits of every nonzero decimal that fits |
| NumberCodec.DecodeInvertsEncode | Sources/ODPIC/src/dpiUtils.c:423-503 | reading what was encoded gives the same decimal, the single digit 0 for zero, and an error if and only if the decimal does not fit |
| NumberCodec.BodyInvertsDecode | Sources/ODPIC/src/dpiUtils.c:423-503 | every canonical encoding is the encoding of what the parser reads from it, so encoding is a bijection |
| NumberCodec.BodyIsCanonical | Sources/ODPIC/src/dpiData.c:467-523 | the encoder produces canonical encodings only |
| NumberOrder.BodyValue | Sources/ODPIC/src/dpiData.c:467-523 | the bytes, read as a base-100 number as the format defines it, denote exactly the value of the decimal |
| NumberOrder.ByteOrderIsNumericOrder | Sources/ODPIC/src/dpiData.c:467-523 | bytes compare as the numbers do, and equal bytes are equal numbers, for all decimals of both signs and zero but the negative ones with forty digits, an odd point index and a 38th or 39th digit other than zero |
| NumberOrder.DisorderedPartner | Sources/ODPIC/src/dpiData.c:467-523 | each of those is smaller than the number of its first 38 digits, which fits, but has larger bytes |
| NumberOrder.RightlyPlacedExactly | Sources/ODPIC/src/dpiData.c:467-523 | a decimal compares rightly with all decimals that fit if and only if it is none of those |
| NumberText.ScanSpelled | Sources/ODPIC/src/dpiUtils.c:282-415 | every numeral of digits, with an optional fraction and an optional exponent of one to three digits, is accepted and read as what was spelled |
| NumberText.ScanSound | Sources/ODPIC/src/dpiUtils.c:282-415 | every accepted text is the spelling of such a numeral |
| NumberText.NormalizeValue | Sources/ODPIC/src/dpiUtils.c:282-415 | dropping zeros with the point index following leaves the value of the numeral, and a normal form without leading and trailing zeros |
| NumberText.ParseTextCorrect | Sources/ODPIC/src/dpiUtils.c:282-415 | the accepted texts are exactly the spellings of well-formed numerals whose normal form has at most 40 digits and a point index from -129 to 126; the result is that normal form, with exactly the value the text denotes |
| NumberText.NumeralMeans | Sources/ODPIC/src/dpiUtils.c:330-393 | the value of a numeral: a whole number, a fraction, a sign, and an exponent that moves the point by as many places as its digits say, to the left behind a minus sign |
| NumberText.ExponentMoves | Sources/ODPIC/src/dpiUtils.c:366-393 | a numeral with an exponent is the numeral without it, shifted by the number its digits denote in the direction of its sign |
| NumberText.ZeroPoint | Sources/ODPIC/src/dpiUtils.c:347-393 | the point of a zero stands where its digits end, moved on by the exponent, so that a zero can be out of range |
| NumberText.Characters | Sources/ODPIC/src/dpiUtils.c:330-381 | each digit is its character, and what the digits, exponent letters and signs are |
| NumberText.LongExponentRejected | Sources/ODPIC/src/dpiUtils.c:379-381 | a numeral followed by an exponent letter, a sign and four digits is not supported, whatever stands behind |
| NumberText.LongExponentOnly | Sources/ODPIC/src/dpiUtils.c:379-381 | no other text is rejected in that way |
| NumberText.RejectedText | Sources/ODPIC/src/dpiUtils.c:401-412 | a numeral is called not representable if and only if its normal form has more than 40 digits or a point index out of range |
| NumberText.RejectedNumeral | Sources/ODPIC/src/dpiUtils.c:401-412 | only numerals are called so |
| NumberTextParser.ReadDigits | Sources/ODPIC/src/dpiUtils.c:331-364 | the digit loops store the significant digits and count the leading zeros |
| NumberTextParser.ReadExponent | Sources/ODPIC/src/dpiUtils.c:366-393 | the exponent with its sign, which is the number that its digits denote, at most three digits, and its errors |
| NumberTextParser.StripZeros | Sources/ODPIC/src/dpiUtils.c:401-404 | trailing zeros are dropped |
| NumberTextParser.ParseNumberString | Sources/ODPIC/src/dpiUtils.c:282-415 | the parser of texts, with its digit buffer, accepts and computes exactly what the grammar says, errors included |
| NumberFormat.ConvertInvertsBytes | Sources/ODPIC/src/dpiUtils.c:307-323 | the two bytes of each UTF-16 character, in the order of the platform, are read as the character that was written |
| NumberFormat.PrintLength | Sources/ODPIC/src/dpiData.c:175-186 | the precomputed number of characters is the number written, in every case of the point index, and at most 172 |
| NumberFormat.PrintedReadsBack | Sources/ODPIC/src/dpiData.c:195-259 | in either character set, the printed text of a decimal is parsed as the same decimal |
| NumberFormat.ZeroReadsBack | Sources/ODPIC/src/dpiData.c:195-259 | zero is printed as 0 and parsed as zero |
| NumberFormat.PutUnit | Sources/ODPIC/src/dpiData.c:195-259 | a character is written as one byte or as a UTF-16 unit, its low byte first or last as the platform has it |
| NumberFormat.PutZeros | Sources/ODPIC/src/dpiData.c:204-225 | the loops that write zeros |
| NumberFormat.PutDigits | Sources/ODPIC/src/dpiData.c:213-218 | the loop that writes the digits with the decimal point among them; what a corrupt number has for digits is added to the character 0 as well |
| NumberFormat.PutLead | Sources/ODPIC/src/dpiData.c:204-211 | zero, decimal point and zeros in front of small numbers |
| NumberFormat.WriteText | Sources/ODPIC/src/dpiData.c:195-259 | sign, lead, digits and trailing zeros together are the printed text, and nothing behind it is written |
| NumberFormat.FromOracleNumberAsText | Sources/ODPIC/src/dpiData.c:160-262 | parsing and printing, for any bytes: the text of the decoded number, or the error of the parser, or of a buffer that is too small, or an overrun by more than forty digits |
| NumberConversion.ConvertText | Sources/ODPIC/src/dpiUtils.c:307-323 | the loop that converts UTF-16 to characters and rejects those beyond 127 |
| NumberConversion.TooLongExactly | Sources/ODPIC/src/dpiUtils.c:295-305 | in either character set, the empty text is no number and texts of more than 172 characters are too long, and no others |
| NumberConversion.ToOracleNumberFromText | Sources/ODPIC/src/dpiData.c:452-526 | from text to the OCI number, or an error that leaves the number alone, or an overrun, which is if and only if the text is accepted and its number does not fit |
| NumberConversion.FortyDigitsOverrun | Sources/ODPIC/src/dpiData.c:452-526 | a text of forty digits, in either character set, that is accepted and takes 23 bytes |
| NumberConversion.TextRoundTrip | Sources/ODPIC/src/dpiData.c:452-526 | any accepted text goes into the OCI number and comes back as an accepted text of exactly the same value, in either character set, if and only if the number fits |
| NumberConversion.KnownTexts | Sources/ODPIC/src/dpiData.c:195-259 | how 123.45, 100, 0.05 and -7 are printed |
| HandlePool.WindowTake | Sources/ODPIC/src/dpiHandlePool.c:49-53 | taking a handle out of the ring takes the longest-idle one, at any position and across the wrap-around |
| HandlePool.WindowPut | Sources/ODPIC/src/dpiHandlePool.c:127-130 | putting a handle into the ring appends it, unless it takes the last slot, which makes the ring look empty |
| HandlePool.Pool.constructor | Sources/ODPIC/src/dpiHandlePool.c:80-100 | a pool starts with eight empty slots |
| HandlePool.Pool.Acquire | Sources/ODPIC/src/dpiHandlePool.c:43-73 | the ring refines the queue: the longest-idle handle, or NULL with another slot reserved; it fails if and only if none is idle, all slots are used and there is no memory, and grows by eight slots otherwise when all are used |
| HandlePool.Pool.Grow | Sources/ODPIC/src/dpiHandlePool.c:57-68 | growth keeps an empty ring empty at any position |
| HandlePool.Pool.Release | Sources/ODPIC/src/dpiHandlePool.c:124-132 | the handle becomes the last idle one, or all idle handles are lost |
| HandlePool.NeverHeldTwice | Sources/ODPIC/src/dpiHandlePool.c:43-73 | over every run, however full the pool gets, no handle is in the hands of two holders, or held and idle, and all created handles are accounted for |
| HandlePool.FirstInFirstOut | Sources/ODPIC/src/dpiHandlePool.c:43-73 | over every run in which nothing was lost, handles are handed out again in the order of their release, and NULL is returned only when none is idle |
| HandlePool.LossExactly | Sources/ODPIC/src/dpiHandlePool.c:124-132 | a release loses handles if and only if the idle handles fill all slots, whether or not allocations have failed before, and then all handles are lost |
| HandlePool.EveryRunHolds | Sources/ODPIC/src/dpiHandlePool.c:80-132 | at every point of every run of a new pool, handles are exclusive, in the order of their release, and not more than there are slots: what the statements about runs start from |
| HandlePool.LossOverRuns | Sources/ODPIC/src/dpiHandlePool.c:124-132 | at every point of every run of a new pool, a release loses handles if and only if the idle handles come to fill all slots, and only if none was lost before |
| HandlePool.LostAtMostOnce | Sources/ODPIC/src/dpiHandlePool.c:124-132 | over every run, with allocations that fail or not, handles are lost at most once |
| HandlePool.AllIdleHandlesLost | Sources/ODPIC/src/dpiHandlePool.c:124-132 | the run from the start in which eight handles are requested, created and given back loses them all, and the next request gets NULL |
| HandlePool.RequestFailsExactly | Sources/ODPIC/src/dpiHandlePool.c:43-73 | at every point of every run of a new pool, a request fails if and only if no handle is idle, as many requests as there are slots found none before, and there is no memory |
| HandlePool.NeverFailsWithMemory | Sources/ODPIC/src/dpiHandlePool.c:43-73 | in a run whose allocations succeed no request fails, and the pool has as many slots as the least multiple of eight, at least eight, that is no less than the number of requests that found no idle handle |
| HandleList.UsedIsCount | Sources/ODPIC/src/dpiHandleList.c:40-76 | the number of used slots is the number of occupied ones |
| HandleList.ScanFinds | Sources/ODPIC/src/dpiHandleList.c:61-67 | the rotating scan of a list that is not full finds an empty slot within as many probes as there are slots |
| HandleList.SlotList.constructor | Sources/ODPIC/src/dpiHandleList.c:83-102 | a list starts with empty slots |
| HandleList.SlotList.Grow | Sources/ODPIC/src/dpiHandleList.c:47-59 | growth keeps every handle at its slot |
| HandleList.SlotList.Scan | Sources/ODPIC/src/dpiHandleList.c:61-72 | the scan stops at the first empty slot from the current position on |
| HandleList.SlotList.AddHandle | Sources/ODPIC/src/dpiHandleList.c:40-76 | the handle gets a slot nobody has, all others keep theirs, and the list grows only when it is full |
| HandleList.SlotList.RemoveHandle | Sources/ODPIC/src/dpiHandleList.c:123-129 | exactly the given slot becomes empty |
| LifetimeSteps.LocalStepKeeps | Sources/ODPIC/src/dpiLob.c:83-133 | every step of closing and freeing that stays on one handle keeps the invariant |
| LifetimeKeeps.DropLastReference | Sources/ODPIC/src/dpiGen.c:286-302 | when the count reaches zero, the check integer goes in the same step and one free procedure starts |
| LifetimeKeeps.ReleaseNext | Sources/ODPIC/src/dpiObject.c:228-240 | a free procedure passes the references of its handle on, one by one |
| LifetimeKeeps.TakeReference | Sources/ODPIC/src/dpiConn.c:160-181 | the close of a connection takes a reference only to an entry that is alive, whatever other threads do with it |
| LifetimeCalls.ShareKeeps | Sources/ODPIC/src/dpiGen.c:278-302 | adding a reference keeps the invariant |
| LifetimeCalls.CreateKeeps | Sources/ODPIC/src/dpiObject.c:40-76 | creating a handle with references to its parents keeps the invariant |
| LifetimeRuns.NextKeepsInv | Sources/ODPIC/src/dpiConn.c:131-237 | every step of every thread keeps counts, flags, calls and resources of all handles consistent |
| LifetimeLists.NextKeeps | Sources/ODPIC/src/dpiConn.c:160-234 | the same, with what is known about the entries of the lists, including those read and not yet checked |
| LifetimeOwners.NextKeepsOwners | Sources/ODPIC/src/dpiConn.c:160-234 | every step keeps entries with the connection they belong to, and closes objects for a user only when their connection is being closed |
| LifetimeOwners.WalkerClosed | Sources/ODPIC/src/dpiConn.c:160-181 | a close that finds a live entry in the list of its connection is one by a user: nothing that belongs to a connection being freed is alive |
| LifetimeOpen.NextKeepsOpen | Sources/ODPIC/src/dpiLob.c:44-114 | every step keeps the lists of LOBs and objects exact |
| LifetimeSafety.CountsAreReferences | Sources/ODPIC/src/dpiGen.c:278-303 | in every reachable state, the count is the number of references owned, held by calls and kept by handles; the free procedure was called once if the count is zero and never otherwise; an OCI resource is there or was freed exactly once |
| LifetimeSafety.NeverRevived | Sources/ODPIC/src/dpiGen.c:286-302 | a handle whose count reached zero stays so, and its free procedure is not called again |
| LifetimeSafety.CallsAreOnLiveHandles | Sources/ODPIC/src/dpiGen.c:220-232 | every call in progress works on a handle whose memory was not given back: one it holds a reference to, or the one it frees |
| LifetimeSafety.ReferencesAreLive | Sources/ODPIC/src/dpiObjectType.c:157-180 | no handle refers to one that is being freed or was freed |
| LifetimeSafety.ListOwnersAreLive | Sources/ODPIC/src/dpiObject.c:206-221 | the connection whose list a close changes is alive, also behind an object type |
| LifetimeSafety.OneCloseAtATime | Sources/ODPIC/src/dpiLob.c:90-101 | two calls that passed the closing flag of one handle and are not done are the same call |
| LifetimeSafety.FlagMeansClosing | Sources/ODPIC/src/dpiConn.c:1547-1558 | a handle whose closing flag is set although its session, locator or instance is there is being closed by exactly one call, so that a close that failed can be made again |
| LifetimeSafety.NeverStuck | Sources/ODPIC/src/dpiConn.c:131-237 | whatever OCI answers, the next step of every call can be taken: the handles it dereferences are there, among them the connection a LOB asks when it is checked or freed |
| LifetimeSafety.NothingLeaks | Sources/ODPIC/src/dpiLob.c:139-147 | once all calls are over and nobody owns a reference, every handle was freed once, every session ended exactly once, every locator was freed exactly once, and the instance of every object that does not depend on another one exactly once |
| LifetimeSafety.ListHoldsOpenLobs | Sources/ODPIC/src/dpiLob.c:44-58 | the list of a connection that was never closed by a user holds exactly its LOBs with a locator, each at its own slot |
| LifetimeSafety.ListHoldsObjects | Sources/ODPIC/src/dpiObject.c:206-221 | and exactly its objects with an instance, those without one only while they are being taken out, each at its own slot |
| LifetimeSafety.ListsAreEmptyAtTheEnd | Sources/ODPIC/src/dpiConn.c:554-575 | both lists are empty when the last reference to the connection goes |
| LifetimeSafety.ObjectsCloseWithConnection | Sources/ODPIC/src/dpiObject.c:160-201 | an instance is freed on behalf of a user only after its connection was closed |
| LifetimeSettles.NextNested | Sources/ODPIC/src/dpiConn.c:160-181 | the close of an object that its free procedure does not make stands right above the walk of its own connection on the stack |
| LifetimeSettles.OwnResetsOnly | Sources/ODPIC/src/dpiObject.c:188-197 | while a call is closing a connection, a close of an object of that connection that fails is one that this call makes |
| LifetimeCloses.EverythingIsClosedFirst | Sources/ODPIC/src/dpiConn.c:160-245 | when the close of a connection by a user reaches the end of the session, everything that was in one of its lists when the walk of the lists began is closed, being closed by another call, or without references, whatever other threads do and OCI answers |
| LifetimeCloses.CloseOfConnection | Sources/ODPIC/src/dpiConn.c:1506-1561 | a close of a connection by a user that gets good answers either finds it closed or being closed, or walks both lists, has everything in them closed, and ends the session once |
| LifetimeCloses.RefusedCloseDoesNothing | Sources/ODPIC/src/dpiConn.c:1514-1545 | a close by a user that does not pass its check, and any close that finds the closing flag set, ends without changing a handle |
| LifetimeCloses.CloseOfLob | Sources/ODPIC/src/dpiLob.c:83-133 | a close of a LOB by a user that passes its check and does not find the closing flag set ends with the locator gone and freed once, whether or not OCI reports errors |
| RefCounts.AliveIffReachable | Sources/ODPIC/src/dpiGen.c:278-303 | when counts are balanced, a handle is alive if and only if the program can reach it from a reference it owns |
| RefCounts.Handles.Add | Sources/ODPIC/src/dpiGen.c:278-302 | adding a reference changes one count only |
| RefCounts.Handles.Drop | Sources/ODPIC/src/dpiGen.c:278-303 | dropping a reference, with the cascade it may start, keeps counts balanced and leaves no free procedure unfinished |
| RefCounts.Handles.FreeRefs | Sources/ODPIC/src/dpiObjectType.c:157-180 | a free procedure gives back all references of its handle |
| RefCounts.Handles.Create | Sources/ODPIC/src/dpiObject.c:40-76 | a new handle has one reference and one to each of its parents |
| RefCounts.Handles.AddRef | Sources/ODPIC/src/dpiGen.c:220-232 | a handle without check integer is refused |
| RefCounts.Handles.Release | Sources/ODPIC/src/dpiGen.c:258-303 | a release frees exactly the handles the program can no longer reach, each once, or refuses a handle that was freed |
| SessionPool.SharedPool.SessionGet | Sources/ODPIC/src/dpiConn.c:893-899 | OCI gives out an idle session or a new one without a stamp, or refuses |
| SessionPool.Connection.Ping | Sources/ODPIC/src/dpiOci.c:2919-2939 | a ping takes place with the network settings changed, and succeeds if and only if OCI reports no error or 1010 |
| SessionPool.Connection.PingQuickly | Sources/ODPIC/src/dpiConn.c:941-969 | whether OCI reported an error other than 1010; after a successful ping the network settings of all sessions are as they were, after a failed one those of this session are the changed ones |
| SessionPool.Connection.Examine | Sources/ODPIC/src/dpiConn.c:901-969 | which sessions are new, recent, answered or bad, by OCI's answers, stamp, ping interval and clock |
| SessionPool.Connection.GetSession | Sources/ODPIC/src/dpiConn.c:883-984 | within one round more than there are stamped idle sessions, whatever OCI answers in each round; all rounds but the last gave a session that was due for a ping and reported an error other than 1010, and exactly those are dropped; the last takes the session that OCI gives, if any, and succeeds if and only if OCI gives it with its handles, its context and, for a new one, its attribute |
| SessionPool.PingedExactly | Sources/ODPIC/src/dpiConn.c:901-969 | over every run, a session is handed out as pinged if and only if the ping interval has passed since the stamp that closes have left, and then OCI reported no error or 1010; the pings of the sessions that are dropped were due as well and reported other errors |
| SessionPool.Connection.ChangeOfStamp | Sources/ODPIC/src/dpiConn.c:274-312 | exactly when the close ends with an error, when an error marks the session as dead, and what becomes of the stamp, from OCI's answers |
| SessionPool.Connection.Close | Sources/ODPIC/src/dpiConn.c:258-328 | the session is dead if and only if it is to be dropped, was known to be dead, its server is not normal, or storing the stamp reported so; exactly when the close fails; a dead session is dropped and any other given back, if OCI releases it; a close that fails leaves the session with the connection |
| SessionPool.StampLeft | Sources/ODPIC/src/dpiConn.c:274-312 | the stamp after a close: its time, unless the session is dead, there is no session handle, or the stamp could not be looked up or stored |
| SessionPool.DroppedForAReason | Sources/ODPIC/src/dpiConn.c:258-328 | over every run, a session is dropped only because its ping failed, or by a close that was asked to, knew that it is dead, found its server not normal or got an error that says so |
| SessionPool.StampsAlwaysTell | Sources/ODPIC/src/dpiConn.c:258-328 | over every run, with closes that fail and are tried again and closes that do not check for errors, every session that was not dropped has exactly the stamp that closes have left |
| SessionPool.StampIsLastClose | Sources/ODPIC/src/dpiConn.c:258-328 | over every run, the stamp of an idle session is of the time of its last close, if that close checked for errors and had the session handle, or set the stamp |
| SessionPool.OldStampStays | Sources/ODPIC/src/dpiConn.c:554-557 | a run after which an idle session has an older stamp than its last close, which the free procedure made |
| SessionPool.UnpingedIsRecent | Sources/ODPIC/src/dpiConn.c:914-939 | over every run, a session handed out without a ping has no stamp, or was stamped by a close less than the ping interval before, or the interval is negative |
| SessionPool.DeadStaysAway | Sources/ODPIC/src/dpiConn.c:258-328 | over every run, a session whose ping failed, or of which a close was asked to drop it, knew that it is dead or found its server not normal, also if that close failed or did not release it, is never handed out again |
| SessionPool.OneHolder | Sources/ODPIC/src/dpiConn.c:883-984 | over every run, a session is given back between two times it is handed out, if OCI gives out idle and new sessions only |
| JsonTrees.PutAllDistinct | Sources/ODPIC/src/dpiJson.c:422-444 | fields with distinct short names stand in the document in their order |
| JsonTrees.PutAllNames | Sources/ODPIC/src/dpiJson.c:422-444 | the names in a document object are distinct and shorter than 65536 bytes |
| JsonTrees.NumberRoundTrip | Sources/ODPIC/src/dpiJson.c:470-492 | a number given as text comes back as the same text if and only if it is spelled as the driver prints it, fits an OCI number and fits the buffer |
| JsonTrees.RoundTrip | Sources/ODPIC/src/dpiJson.c:395-606 | writing a tree of any depth and width and reading it back gives the same tree if and only if names are distinct and short and numbers canonical at every depth |
| JsonMeaning.WrittenExactly | Sources/ODPIC/src/dpiJson.c:451-606 | a tree is written if and only if every number in it, at any depth, is one |
| JsonMeaning.CutExactly | Sources/ODPIC/src/dpiJson.c:436-438 | names are cut at multiples of 65536 bytes, and left as they are if and only if they are shorter |
| JsonMeaning.PutExactly | Sources/ODPIC/src/dpiJson.c:436-438 | a field that is put replaces the one of its name where it is, or is the last one |
| JsonMeaning.WrittenMeans | Sources/ODPIC/src/dpiJson.c:395-606 | what is written: strings, raw values, booleans and null as they are, numbers as their encodings, arrays element by element, objects with each name once and the value of the last field of that name |
| JsonMeaning.ReadExactly | Sources/ODPIC/src/dpiJson.c:210-388 | a document can be read if and only if every number in it, at any depth, can be decoded, has at most forty digits, and fits the buffer as text |
| JsonMeaning.ReadMeans | Sources/ODPIC/src/dpiJson.c:89-388 | what is read: strings, raw values, booleans and null as they are, numbers as the text that is printed for them, arrays and objects element by element |
| JsonNodes.Json.NumberAsText | Sources/ODPIC/src/dpiJson.c:210-251 | the text of a number, in a temporary buffer that no other number uses; an overrun if the array of buffers could not be enlarged before; a failed conversion leaves 172 bytes in the node |
| JsonNodes.Json.ReadScalar | Sources/ODPIC/src/dpiJson.c:258-359 | scalars become nodes of the right types and values; only numbers can fail or overrun |
| JsonNodes.Json.ReadBatch | Sources/ODPIC/src/dpiJson.c:126-132 | one batch of children, up to the first that fails; the arrays allocated are those of the children |
| JsonNodes.Json.ReadArray | Sources/ODPIC/src/dpiJson.c:89-136 | an array node stands for the document array if reading succeeds, and owns all that was allocated in any case |
| JsonNodes.Json.ReadObject | Sources/ODPIC/src/dpiJson.c:144-200 | the same for objects with their four arrays |
| JsonNodes.Json.ReadNode | Sources/ODPIC/src/dpiJson.c:366-388 | a node stands for what is in the document if reading succeeds, and owns all that was allocated in any case; if memory is plentiful, and was, reading succeeds if and only if every number can be read |
| JsonNodes.NodeRead | Sources/ODPIC/src/dpiJson.c:366-388 | when reading comes to its end, by what the parts of a node report |
| JsonNodes.Json.FreeNode | Sources/ODPIC/src/dpiJson.c:653-696 | freeing a node, complete or not, frees exactly the arrays it owns, each once, and leaves null pointers |
| JsonNodes.Json.GetValue | Sources/ODPIC/src/dpiJson.c:755-778 | the arrays allocated are those of the top node, before and after; a handle without a document has the value NULL; a read leaves a pointer that is none if and only if the document is an empty array or object and a length was left in the buffer, and fails if and only if such a pointer is there |
| JsonNodes.WordLeftExactly | Sources/ODPIC/src/dpiJson.c:265-356 | after any documents read in turn, as long as no read has failed by freeing a length, one is left if and only if the last that was no boolean, null, empty array or empty object is a string, raw value or number that is not empty |
| JsonNodes.StringThenEmptyArray | Sources/ODPIC/src/dpiJson.c:653-696 | reading a string and then an empty array succeeds, and freeing the handle then frees a pointer that is none |
| JsonNodes.FreeBuffers | Sources/ODPIC/src/dpiJson.c:718-723 | the temporary buffers are freed, each once, and then the array of them, and nothing is left of them |
| JsonNodes.EnlargeArray | Sources/ODPIC/src/dpiJson.c:219-233 | the array of temporary buffers is replaced by a larger one and freed; if there is no memory, it is believed to be larger from then on |
| JsonNodes.Json.Free | Sources/ODPIC/src/dpiJson.c:704-738 | nothing is left allocated, neither arrays of nodes nor temporary buffers, whether or not the last value was read to its end; it frees a pointer that is none if and only if the last read left one |
| JsonWriter.Document.WriteArray | Sources/ODPIC/src/dpiJson.c:395-415 | an array is written completely, or what was written of it is freed |
| JsonWriter.Document.WriteObject | Sources/ODPIC/src/dpiJson.c:422-444 | an object is written field by field, or what was written of it is freed |
| JsonWriter.Document.WriteScalar | Sources/ODPIC/src/dpiJson.c:470-600 | scalars by Oracle type and native type: booleans, null, raw values and strings are always written, as what they are |
| JsonWriter.Document.WriteNode | Sources/ODPIC/src/dpiJson.c:451-606 | a tree of nodes is written if and only if its types match and its numbers parse, and stands in the document then; otherwise nothing is left in the document |
| JsonWriter.MatchesExactly | Sources/ODPIC/src/dpiJson.c:458-600 | the native type that goes with each Oracle type |
| JsonWriter.NodeWritten | Sources/ODPIC/src/dpiJson.c:451-606 | which nodes are written, and what stands in the document then |
| JsonWriter.WrittenIsOk | Sources/ODPIC/src/dpiJson.c:451-606 | the numbers in a written document can be read, without overrunning the buffer of digits |
| JsonWriter.NodesRoundTrip | Sources/ODPIC/src/dpiJson.c:366-388 | nodes that are written and read stand for the same tree if and only if names and numbers are faithful |
| CollectionNames.SliceIsName | Sources/ODPIC/src/dpiSodaDb.c:132-142 | the slice of the buffer at the sum of the lengths in front is the name |
| CollectionNames.RoomExactly | Sources/ODPIC/src/dpiSodaDb.c:100-121 | the buffer is large enough if and only if no name needs more than one growth by 32768 bytes beyond what the names in front of it need |
| CollectionNames.ShortNamesFit | Sources/ODPIC/src/dpiSodaDb.c:100-116 | names of at most 32768 bytes never overrun the buffer |
| CollectionNames.LongNameOverruns | Sources/ODPIC/src/dpiSodaDb.c:100-121 | a first name of 32769 bytes overruns the buffer |
| CollectionNames.Store | Sources/ODPIC/src/dpiSodaDb.c:82-125 | one more name is stored, with growth by 256 lengths and 32768 characters, if and only if there is room after one growth |
| CollectionNames.CollectAll | Sources/ODPIC/src/dpiSodaDb.c:62-130 | the loop collects the first names up to the limit, all if it is zero, if and only if no call or allocation fails on the way and no name needs more than one growth; it reports a failure only if there is one |
| CollectionNames.SetNames | Sources/ODPIC/src/dpiSodaDb.c:132-142 | each pointer is at the sum of the lengths in front, and its slice is the name |
| CollectionNames.GetCollectionNames | Sources/ODPIC/src/dpiSodaDb.c:53-145 | the whole: all names wanted are there at their pointers if and only if no call or allocation fails and no name needs more than one growth; which of the two it was otherwise |
| Timestamps.ToInterval | Sources/ODPIC/src/dpiData.c:589-599 | the fields are within their ranges, of the sign of the number, and denote it up to a millionth of a millisecond |
| Timestamps.FromInterval | Sources/ODPIC/src/dpiData.c:329-332 | the sum of the fields in milliseconds, with C's division |
| Timestamps.Fields | Sources/ODPIC/src/dpiData.c:589-599 | the weights of the fields, their ranges and their common sign |
| Timestamps.RoundTrip | Sources/ODPIC/src/dpiData.c:589-599 | going to an interval and back cuts off the fraction, and is the identity if and only if the number is whole, before and after 1970 |

## Left out

- The bodies of OCI, the network and the database; error texts, debug output and thread-local error buffers.
- Statements: the close of a connection treats them as it treats LOBs.
- Failed allocations and failed creations in the lifetime model, connections with external handles, and the temporary
  test of LOBs; whether OCI's part of a close succeeds is arbitrary. In a close that drops the session, which does not
  check for errors, all calls succeed.
- LifetimeCloses.CloseOfConnection: says what a close has brought about when it ends; that it ends, which needs other
  threads to let it, is not stated. `LifetimeSafety.NeverStuck` says that its next step can always be taken.
- SessionPool.Connection.Close: the rollback in front, and errors of the calls on objects, statements and LOBs in
  between, which mark the session as dead as well, are part of what is known before.
- `Lifetimes`: a connection's `closing` flag and the removal from its list are read and done in one step, as are the
  two reads of a list slot; the sub-handles of a connection other than its session are not modelled.
- Handles outside the reference graph of session pools, connections, object types, LOBs and objects: rowids, JSON
  values, queues, message properties, subscriptions, variables and SODA handles.
- LifetimeSafety.ListHoldsObjects: says nothing about connections that a user has closed, where the indicator of an
  object may not be freed and its entry stays.
- CollectionNames.CollectAll: sums of lengths beyond 32 bits are not modelled.
- JsonNodes.Json.GetValue: what happens after an overrun or after freeing a pointer that is none is not modelled.
- JsonNodes.Json.ReadNode: nodes are values that are returned instead of memory that is filled in place; the addresses
  of their arrays are kept, aliasing between nodes is not modelled. The fields for temporary buffers are one value.
- NumberTextParser.ParseNumberString: read pointers are modelled as what is left to be read, here and in the other
  parser; target buffers are arrays.
- JSON scalars that do not keep their type or value: doubles, floats, dates, timestamps and intervals; timestamps and
  intervals leave words in the buffer of the top node as well. What is behind a number in its buffer is taken as zeros;
  nothing reads it.
- NumberFormat.WriteText: one writer with the character set as a parameter stands for the two branches of the code,
  which differ in how they write a character.
- Timestamps.ToInterval: rounding of doubles, and numbers of days beyond 32 bits.
- The Swift layer, SODA documents, AQ options, attribute plumbing and constant tables.
