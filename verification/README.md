# Verification of ndn-cpp

A Dafny model of the parts of the NDN client library where a mistake is hard to see, with proofs about them. The modules
follow the library's files. Where the code works step by step on objects and buffers, the model is a class or a method
with the same loops and branches, tied to a specification function, and the laws are proved about that function.

- **Hashing.** `Fips180` is the standard: SHA-256 (FIPS 180-4, sections 5.1.1, 5.2.1 and 6.2.2) and HMAC (RFC 2104,
  section 2). `Fips180Constants` proves that its constants are the bits of the roots of primes that sections 4.2.2 and
  5.3.3 describe. `Cryptosuite` is the byte-at-a-time engine with its XOR-3 buffer, rolling schedule and in-place padding, on
  little-endian memory. `OpenSsl` is the block function in its compact form and in its unrolled form, where the registers
  rotate by renaming, on memory of either endianness. Both refine the standard, so they agree.
- **Base64.** `Base64` is RFC 4648, section 4, on 24-bit groups, and the encoder and decoder that walk over buffers.
  `Base64Text` states its alphabet in characters.
- **Names.** `NameOrder` is the canonical order and the successor, and `CanonicalOrder` the same order on plain numbers;
  `NameUri` the URI printer and parser as functions, and `NameText` what they print and read, in characters;
  `NameStream` the printing loops on a stream whose hex flag stays set; `NameObject` the mutable name with its hash memo;
  `NameNumber` numbers as components.
- **Node.** `NodeSpec` is the protocol as a state machine with a log of what happened: expressing interests, connecting,
  data, nacks, timeouts, removals, registrations and their filters. `NodeLedger` says what each operation hands on,
  `NodeOutcomes` which callback a packet, a reply, a timer or a removal calls, and what a reply leaves in the tables,
  `NodeInvariant` and `NodeRuns` what every step and every run keep, `NodeRemoval` what removal guarantees, `NodeSending`
  that what may be sent is sent, once each and in order. `NodeTables` and `Node` are the objects with their tables, each
  method equal to one step; their `Valid` includes the invariant.
- **Exclude, DelegationSet, InterestMatch.** The exclude scan, the sorted list of delegations, and the matching of an
  Interest with a Data packet.
- **Encoding caches.** `EncodingCache` specifies objects whose cached encoding is guarded by change counts, over any wire
  formats where decoding undoes encoding. `PacketData` and `PacketInterest` are the Data and Interest objects,
  `PacketFullName` the cached full name of a Data packet over runs.

Several of the library's promises fail in some case. Each is stated with the exact condition under which it holds:

- A byte count of 32 bits pads the wrong length from 2^32 bytes on (`Cryptosuite.EnginePadsCorrectly`).
- Nothing is promised to lie between a name and its successor (include/ndn-cpp/name.hpp:1341), but every extension of
  the name does; from the name up to its successor there are exactly the name and its extensions
  (`NameOrder.SuccessorInterval`). The successor of the empty name
  is a digest component, and all names below it lie between (`NameOrder.EmptySuccessorInterval`).
- The sub-range compare normalizes a negative start in the other name only by the sign of the wrong variable
  (src/name.cpp:670), and otherwise reads out of bounds (`NameOrder.CompareRange`).
- Printing a digest leaves the stream in hex mode (src/common.cpp:38), so a later type code of ten or more is printed in
  hex and read back wrong or refused (`NameUri.UriRoundTrip`, `NameUri.TypeCodeAfterDigest`).
- An exclude list ending in two ANYs takes the first one's empty component as the lower bound (src/exclude.cpp:73), and
  excludes too much (`Exclude.Matches`, `Exclude.TrailingAny`, `Exclude.TwoAnysExcludeTooMuch`).
- An interest too large to send, expressed while connecting, throws out of onConnected: no interest is attempted ever
  again (`NodeRemoval.ConnectionOutcome`, `NodeRemoval.StuckForGood`, and the run of `NodeRemoval.OversizeSticks`).
- `Data::operator=` copies an encoding that may be stale (src/data.cpp:85-86, `PacketData.AssignCoherentIff`,
  `PacketData.AssignedStaleEncoding`).
- `Interest::operator=` takes over the encoding but not the forwarding hint, the application parameters or the absence of
  a link (src/interest.cpp:37-60, `PacketInterest.InterestAssignIff`, `PacketInterest.AssignedWithoutHint`). It counts a
  change after setting the nonce, so the next `getNonce` drops the nonce, and the encoding keeps it
  (`PacketInterest.AssignedNonceStaysEncoded`).
- `getNonce` drops a nonce without a change count (`PacketInterest.NonceCoherentIff`,
  `PacketInterest.DroppedNonceStaysEncoded`). Assigning to a child in place copies its change count and can go unnoticed
  (`EncodingCache.AssignedGoesUnnoticed`).
- The cached full name survives a change of the content once the packet is encoded again (src/data.cpp:114-119,
  `PacketData.StaleFullName`), and the assignment of another packet (src/data.cpp:75-89,
  `PacketFullName.AssignedKeepsName`). After any run of changes, encodings, assignments and copies it is current if and
  only if it is not taken from the cache, or was made for the cached encoding and from the current name
  (`PacketFullName.FullNameIsCurrent`); the encoding alone decides unless a packet with a stale encoding, or a child, was
  assigned (`PacketFullName.FullNameByEncoding`). It stays current until an encode, decode or assignment stores another
  encoding or leaves the same one for other fields (`PacketFullName.CurrentUnlessStored`); another encoding makes it wrong
  (`PacketFullName.StoredMakesStale`). Only that a name is wrong supposes a digest that tells encodings apart.

## Model

| member | source | states |
|---|---|---|
| `Fips180.PadZerosIsSmallest` | contrib/cryptosuite/sha256.cpp:123-128 | the number of zero bytes after 0x80 is the least that leaves room for the length in a block |
| `Fips180.HashBlocksAppend` | contrib/cryptosuite/sha256.cpp:109-116 | hashing blocks one after the other is hashing them together |
| `Fips180Constants.RoundConstants` | contrib/cryptosuite/sha256.cpp:31-40 | each of the 64 round constants is the first 32 bits of the fractional part of the cube root of its prime |
| `Fips180Constants.InitialHash` | contrib/cryptosuite/sha256.cpp:47-56 | each word of the initial hash value is that of the square root of its prime |
| `HashState.AddToState` | contrib/cryptosuite/sha256.cpp:99-106 | the eight working registers are added to the state words |
| `Cryptosuite.LaneIsXorThree` | contrib/cryptosuite/sha256.cpp:110 | the index XOR 3 is the byte swapped within its word |
| `Cryptosuite.HoldsWords` | contrib/cryptosuite/sha256.cpp:109-116 | a full buffer stored by XOR 3 reads, as little-endian words, the big-endian words of the block |
| `Cryptosuite.RorIsRotr` | contrib/cryptosuite/sha256.cpp:64-66 | the shift form rotates right |
| `Cryptosuite.ChForm` | contrib/cryptosuite/sha256.cpp:92 | the engine's form of Ch is the standard's |
| `Cryptosuite.MajForm` | contrib/cryptosuite/sha256.cpp:96 | the engine's form of Maj is the standard's |
| `Cryptosuite.Sha256Class.Init` | contrib/cryptosuite/sha256.cpp:58-62 | the state is the initial hash value, nothing is counted; the buffer is not cleared |
| `Cryptosuite.Sha256Class.NextWord` | contrib/cryptosuite/sha256.cpp:83-87 | the word added into the rolling buffer is the next of the 64-word schedule |
| `Cryptosuite.Sha256Class.RoundTemps` | contrib/cryptosuite/sha256.cpp:90-96 | the two temporaries of a round are those of the standard |
| `Cryptosuite.Sha256Class.HashBlock` | contrib/cryptosuite/sha256.cpp:68-107 | with a block in the buffer, the state becomes its compression |
| `Cryptosuite.Sha256Class.AddUncounted` | contrib/cryptosuite/sha256.cpp:109-116 | one byte is fed, a full block hashed, whatever was fed before |
| `Cryptosuite.Sha256Class.Write` | contrib/cryptosuite/sha256.cpp:118-121 | one byte is fed and counted |
| `Cryptosuite.OffsetAfter` | contrib/cryptosuite/sha256.cpp:127-128 | the padding loop, which may wrap into another block, reaches offset 56 after exactly the least number of zeros |
| `Cryptosuite.Sha256Class.AddLength` | contrib/cryptosuite/sha256.cpp:130-138 | the length field has the bits of the 32-bit byte count |
| `Cryptosuite.Sha256Class.Pad` | contrib/cryptosuite/sha256.cpp:123-139 | the blocks hashed are what was written, padded with the counted length |
| `Cryptosuite.SwappedBytes` | contrib/cryptosuite/sha256.cpp:146-155 | the swapped state words read as bytes are the big-endian digest |
| `Cryptosuite.Sha256Class.Result` | contrib/cryptosuite/sha256.cpp:142-159 | the digest of what was written, for any length |
| `Cryptosuite.Sha256Class.InitHmac` | contrib/cryptosuite/sha256.cpp:167-184 | the key block is stored, hashed first if long, and the inner pad is fed to a reused engine |
| `Cryptosuite.Sha256Class.ResultHmac` | contrib/cryptosuite/sha256.cpp:186-195 | the outer hash of the outer pad and the inner digest |
| `Cryptosuite.EnginePadsCorrectly` | contrib/cryptosuite/sha256.cpp:123-139 | the padding is the standard's if and only if the message is shorter than 2^32 bytes |
| `Cryptosuite.EngineDigestIsSha256` | contrib/cryptosuite/sha256.cpp:58-159 | below 2^32 bytes the engine's digest is SHA-256 |
| `Cryptosuite.EngineHmacIsHmac` | contrib/cryptosuite/sha256.cpp:167-195 | within the byte count the engine's HMAC is that of RFC 2104 |
| `Cryptosuite.Sha256Class.DigestSha256` | src/lite/util/crypto-lite.cpp:131-139 | init, writes and result give SHA-256 of the data |
| `Cryptosuite.Sha256Class.ComputeHmacWithSha256` | src/lite/util/crypto-lite.cpp:141-151 | initHmac, writes and resultHmac give the HMAC |
| `OpenSsl.RotateIsRotr` | contrib/openssl/internal/md32_common.h:183 | the left rotation by n is the right rotation by 32 - n |
| `OpenSsl.Sigma0` | contrib/openssl/sha256.c:183 | the macro by left rotations is the standard's function |
| `OpenSsl.Sigma1` | contrib/openssl/sha256.c:184 | likewise |
| `OpenSsl.LowerSigma0` | contrib/openssl/sha256.c:185 | likewise |
| `OpenSsl.LowerSigma1` | contrib/openssl/sha256.c:186 | likewise |
| `OpenSsl.NextWord` | contrib/openssl/sha256.c:228-233 | the sixteen-word window moves one word along the schedule |
| `OpenSsl.MacroRound` | contrib/openssl/sha256.c:260-263 | the round macro computes the two registers that change; the renaming stands for the rotation |
| `OpenSsl.CompactRounds` | contrib/openssl/sha256.c:212-244 | the two loops make the 64 rounds of the standard |
| `OpenSsl.EightInputRounds` | contrib/openssl/sha256.c:337-384 | eight unrolled rounds over the input, the registers renamed in turn |
| `OpenSsl.EightScheduleRounds` | contrib/openssl/sha256.c:387-396 | eight unrolled rounds over the schedule |
| `OpenSsl.UnrolledRounds` | contrib/openssl/sha256.c:337-396 | the unrolled rounds make the same 64 rounds |
| `OpenSsl.Sha256Ctx.BlockDataOrder` | contrib/openssl/sha256.c:193-256 | over all blocks, the chaining state of the standard |
| `OpenSsl.Sha256Ctx.BlockDataOrderUnrolled` | contrib/openssl/sha256.c:271-408 | over all blocks, the same chaining state, reading aligned words directly on a big-endian machine only, and byte by byte otherwise |
| `Base64.EncodeBinary` | contrib/apache/apr_base64.c:236-267 | writes the encoding and a NUL, no more, and returns exactly encode_len |
| `Base64.DecodeBinary` | contrib/apache/apr_base64.c:144-187 | on any input writes exactly the decoding of the leading run of codes, and returns the number of bytes, less than decode_len |
| `Base64.CountCodes` | contrib/apache/apr_base64.c:152-154 | the first loop counts the leading run of codes |
| `Base64.DecodeEncode` | contrib/apache/apr_base64.c:144-187 | decoding an encoding gives the bytes, through all tails |
| `Base64.EncodeThenDecode` | contrib/apache/apr_base64.c:144-267 | encoding into a buffer, however long, and decoding that buffer gives back the bytes and their number |
| `Base64.EncodeDecode` | contrib/apache/apr_base64.c:236-267 | encoding a decoding gives the codes back if and only if no code stands alone and the unused low bits are zero |
| `Base64.DecodedFits` | contrib/apache/apr_base64.c:109-122 | what is decoded fits in decode_len |
| `Base64Text.Alphabet` | contrib/apache/apr_base64.c:189-190 | the codes of 0 to 63 are the 64 characters in their order, row by row |
| `Base64Text.TailExamples` | contrib/apache/apr_base64.c:251-263 | the examples of RFC 4648 with one, two and three bytes |
| `NameOrder.ComponentsOrder` | src/name.cpp:260-281 | component order is antisymmetric, and equal only for equal codes and values |
| `NameOrder.ComponentsTransitive` | src/name.cpp:260-281 | component order is transitive |
| `NameOrder.CompareOrder` | src/name.cpp:663-696 | name order is antisymmetric, and equal only for names equal component by component |
| `NameOrder.CompareTransitive` | src/name.cpp:663-696 | name order is transitive |
| `NameOrder.CompareRange` | src/name.cpp:663-696 | the sub-range compare is the compare of the two sub-names if and only if the other start is not negative or a range is empty; otherwise it reads out of bounds |
| `NameOrder.LastComponents` | src/name.cpp:513-526 | a negative start of a sub-name counts from the end |
| `CanonicalOrder.ComponentsByNumbers` | src/name.cpp:260-281 | a component is less exactly when its type code, its length and the number of its bytes are lexicographically less |
| `CanonicalOrder.TypesInOrder` | src/name.cpp:264-272 | digests come before digests of parameters, those before every code from 3 to 7, and these before generic components |
| `CanonicalOrder.NamesByFirstDifference` | src/name.cpp:663-696 | a name is less exactly when it has less where the two first differ, or ends there |
| `CanonicalOrder.DigestComesFirst` | src/name.cpp:269-272 | a name with a digest where another first differs by a generic component is less |
| `NameOrder.GetComponentSuccessor` | src/name.cpp:307-334 | the carry loop computes the next value, one byte longer after all 0xFF |
| `NameOrder.ComponentSuccessorIsNext` | src/name.cpp:307-334 | a component is after another if and only if it is not before the other's successor |
| `NameOrder.GetSuccessor` | src/name.cpp:543-550 | the last component is replaced by its successor; the empty name's is a zero digest |
| `NameOrder.SuccessorInterval` | src/name.cpp:543-550 | between a non-empty name and its successor lie exactly the names it is a prefix of |
| `NameOrder.ExtensionsAreBetween` | include/ndn-cpp/name.hpp:1336-1344 | every extension by a component lies strictly between, so the comment does not hold for names |
| `NameOrder.EmptySuccessorInterval` | src/name.cpp:546-547 | between the empty name and its successor lie the names whose first component is before the zero digest |
| `CanonicalOrder.EmptySuccessorIsLeast` | src/name.cpp:546-547 | the successor of the empty name is the least name that a 32-byte digest starts |
| `NameUri.PrintedComponent` | src/name.cpp:221-242 | a printed component is not empty and has no unescaped separator or space |
| `NameText.PlainCharacters` | src/name.cpp:618-623 | the bytes printed as they are are those of the 66 characters 0-9, A-Z, a-z, plus, minus, dot and underscore, and no other |
| `NameText.PlainUri` | src/name.cpp:597-635 | a value of such characters, not all dots, is its own URI behind a slash, and that text parses to it |
| `NameText.ComponentUri` | src/name.cpp:221-242 | the URI of a component of each type, character by character: the prefix, the hex digits, the decimal type code, dots, and bytes escaped by a percent sign and two upper-case digits |
| `NameText.SchemeUri` | src/name.cpp:496-511 | the scheme is printed before the name, and the empty name is a slash |
| `NameText.DecimalUntilDigest` | src/name.cpp:496-511 | until a non-empty digest is printed, a URI is that of its components one by one |
| `NameUri.PrintComponentsShape` | src/name.cpp:496-511 | a printed name starts with a single slash, has no empty component and does not end in one |
| `NameUri.ValueRoundTrip` | src/name.cpp:571-635 | unescaping an escaped value gives the value, dots included |
| `NameUri.HexRoundTrip` | src/name.cpp:65-93 | reading hex digits back gives the bytes |
| `NameUri.ParsePrintedComponent` | src/name.cpp:400-452 | a printed component reads back the same if and only if it is readable: a digest has 32 bytes, and a type code printed in hex mode is below ten |
| `NameUri.ParseOfPrinted` | src/name.cpp:355-393 | scheme, authority and trimming leave a printed name's components alone |
| `NameText.SchemeAndAuthority` | src/name.cpp:365-393 | any scheme before a name, and any authority, are left out |
| `NameText.TypedComponent` | src/name.cpp:422-456 | a type that is neither 0 nor positive is an error; else the component has this type code and value, or is left out when the value is illegal |
| `NameText.IllegalValues` | src/name.cpp:571-595 | the illegal values are no character, one dot and two dots |
| `NameText.AtoiReads` | src/name.cpp:425-435 | a type code is read as spaces, a sign and decimal digits, and the rest is ignored |
| `NameText.HexValues` | src/name.cpp:41-52 | hex digits are read in either case, and nothing else is one |
| `NameText.HexSpaces` | src/name.cpp:71-73 | a space before a pair of digits is skipped |
| `NameText.WhitespaceCharacters` | src/common.cpp:55 | white space is space, tab, newline and return |
| `NameUri.UriRoundTrip` | src/name.cpp:355-511 | parsing a printed name gives a name that compares equal if and only if digests have 32 bytes and no type code of ten or more comes after a non-empty digest |
| `NameUri.TypeCodeAfterDigest` | src/common.cpp:38 | a name with a type code after a digest that does not read back |
| `NameStream.PutHex` | src/common.cpp:32-45 | writes the hex digits, and leaves the stream in hex mode unless there were none |
| `NameStream.PutEscaped` | src/name.cpp:597-635 | writes the escaped value and restores the flags |
| `NameStream.PutComponent` | src/name.cpp:221-242 | writes the component in the stream's mode, and the mode it leaves; an upper-case stream shows in a type code only |
| `NameStream.PutUri` | src/name.cpp:496-511 | the printed name |
| `NameStream.NdnTrim` | src/common.cpp:57-90 | erases white space on both sides |
| `NameStream.UnescapeLoop` | src/name.cpp:99-124 | the loop converts each escape, and keeps an invalid one |
| `NameStream.FromHexLoop` | src/name.cpp:65-93 | the loop reads pairs of digits, skips spaces, ignores a lone last digit and refuses others |
| `NameObject.EqualNamesHashAlike` | src/name.cpp:712-718 | names that compare equal have the same hash, whatever the hash of values |
| `NameObject.HashIsPolynomial` | src/name.cpp:712-720 | the hash is a polynomial in 37 of the components in 32 bits, sign-extended |
| `NameObject.NameRecord.Hash` | src/name.cpp:698-721 | in any state, the hash without the memo, wrapped to int and sign-extended |
| `NameObject.NameRecord.Append` | include/ndn-cpp/name.hpp:935-941 | one component more, one change |
| `NameObject.NameRecord.AppendName` | src/name.cpp:483-494 | the other name's components, even when it is this name |
| `NameObject.NameRecord.Clear` | include/ndn-cpp/name.hpp:1064-1068 | no components, one change |
| `NameObject.NameRecord.Set` | src/name.cpp:355-460 | the parsed components up to the error, if there is one, with more changes |
| `NameObject.ReadComponent` | src/name.cpp:405-452 | reading a component in place, in the whole URI, is parsing its own text |
| `NameNumber.FromNumberWithPrefix` | src/name.cpp:193-208 | the prefix and the shortest big-endian form, by writing little endian and reversing |
| `NameNumber.ToNumberWithPrefix` | src/c/name_c.c:57-75 | the number after the prefix in 64 bits, or an error |
| `NameNumber.NumberRoundTrip` | src/name.cpp:193-208 | a 64-bit number reads back |
| `NameNumber.LastEightBytes` | src/c/name_c.c:67-71 | reading a longer number in 64 bits reads its last eight bytes |
| `NameNumber.ShortestForm` | src/name.cpp:193-208 | bytes are the form of their number if and only if they have no leading zero |
| `NameNumber.NumbersInOrder` | src/name.cpp:193-208 | the canonical order of the components is the order of the numbers |
| `NodeLedger.MatchedMember` | src/impl/pending-interest-table.cpp:68-83 | an entry is taken out if and only if it is in the table and selected |
| `NodeLedger.AttemptEffect` | src/node.cpp:497-534 | an attempt moves one interest to the table or, if it was removed, to its end, and calls nothing |
| `NodeLedger.RunQueueEffect` | src/node.cpp:107-120 | running the queue attempts in order and loses none, even when it stops |
| `NodeLedger.ExpressEffect` | src/node.cpp:50-105 | an interest expressed is attempted or queued, once |
| `NodeLedger.DeliverEffect` | src/node.cpp:216-230 | each extracted entry's onData is called once, and each reply settles its registration once |
| `NodeLedger.RespondEffect` | src/node.cpp:256-327 | a reply settles its registration exactly once, whatever it says |
| `NodeOutcomes.ReplyOutcome` | src/node.cpp:256-327 | in any state of any run, a reply 200 to a pending registration records it with its filter and calls onRegisterSuccess, unless its removal was asked for, when nothing is called and nothing of it is left; any other reply calls onRegisterFailed and nothing of it is in the tables; no other event settles it |
| `NodeOutcomes.FailureChangesNothing` | src/node.cpp:263-290 | a reply that is not 200 changes no table of filters or registrations |
| `NodeOutcomes.UnrecordedReply` | src/node.cpp:292-327 | a registration without an id is told the status and not recorded |
| `NodeOutcomes.DataCalls` | src/node.cpp:216-230 | data calls onData of exactly the pending interests that it matches |
| `NodeOutcomes.NackCalls` | src/node.cpp:468-478 | a nack calls onNetworkNack of exactly the same interests that have one, and nothing else |
| `NodeOutcomes.TimerOutcome` | src/node.cpp:536-542 | a timer ends its pending interest and calls onTimeout if set, or onRegisterFailed; for any other interest it does nothing |
| `NodeOutcomes.RemovalOutcome` | src/impl/pending-interest-table.cpp:109-137 | a removal ends the interests with the id, calls nothing, and keeps a request if there is none |
| `NodeOutcomes.OnlyTimed` | src/node.cpp:511-521 | over any run, only interests with a timeout callback or a lifetime have timers |
| `NodeOutcomes.ConnectsAtOnce` | src/node.cpp:71-82 | over any run, a synchronous transport is asked to connect for each interest until one is attempted without an exception, and never after |
| `NodeOutcomes.FilterSteps` | src/impl/interest-filter-table.cpp:43-58 | setting a filter adds it, and unsetting one removes every filter with its id and no other |
| `NodeOutcomes.FilterStays` | src/node.cpp:256-327 | a filter stays through every step but its own unsetting and removals of registrations |
| `NodeLedger.DataTakes` | src/node.cpp:216-230 | data moves entries from the table to their end, repeating none |
| `NodeLedger.NackTakes` | src/node.cpp:458-482 | so does a nack |
| `NodeLedger.RemoveTakes` | src/impl/pending-interest-table.cpp:109-137 | so does a removal, calling nothing |
| `NodeLedger.TimeoutTakes` | src/node.cpp:536-542 | so does a timer, or it does nothing |
| `NodeInvariant.StepBalanced` | src/node.cpp:50-120 | every step keeps each interest in exactly one place and the attempts in order |
| `NodeInvariant.StepWellIssued` | src/node.cpp:188-193 | every step keeps ids issued and distinct |
| `NodeInvariant.StepTimed` | src/node.cpp:511-521 | every step keeps a timer for each pending interest with a timeout callback or a lifetime |
| `NodeInvariant.StepConnection` | src/node.cpp:63-104 | every step keeps the connection protocol, and the status only advances |
| `NodeInvariant.RunQueueEnds` | src/node.cpp:107-120 | the queue is run to its end if and only if no waiting interest is too large; otherwise it stops and stays |
| `NodeRuns.UnsetRelatedMember` | src/impl/registered-prefix-table.cpp:52-70 | removing a registration unsets exactly the filters its entries name |
| `NodeRuns.StepRecorded` | src/node.cpp:292-314 | every step keeps each filter of a registration recorded with it |
| `NodeRuns.StepInv` | src/node.cpp:50-542 | every step keeps the whole invariant |
| `NodeRuns.Lifecycle` | src/node.cpp:50-542 | over any run, each interest expressed is waiting, pending or ended, exactly once, and called at most once |
| `NodeRuns.AttemptsInOrder` | src/node.cpp:71-120 | over any run, the attempts are the interests expressed, in order, less those waiting; none waits once connected |
| `NodeRemoval.CallbackOnce` | src/node.cpp:216-230 | over any run, at most one event calls a callback of an interest |
| `NodeRemoval.RemovedForGood` | src/impl/pending-interest-table.cpp:47-66 | after removePendingInterest, at any time, the interest is never pending and none of its callbacks is called |
| `NodeRemoval.RegistrationSettlesOnce` | src/node.cpp:256-340 | over any run, at most one of onRegisterSuccess and onRegisterFailed is called for a registration, once |
| `NodeRemoval.NoFilterAfterRemoval` | src/node.hpp:196-208 | after removeRegisteredPrefix, at any time, no filter made for the registration is in the table, then or later |
| `NodeRemoval.ConnectsOnce` | src/node.cpp:84-101 | an asynchronous transport is asked to connect at most once, and the connection is complete if and only if it was reported and the queue was run |
| `NodeRemoval.ConnectionOutcome` | src/node.cpp:107-120 | reporting the connection completes it if and only if no waiting interest is too large to send |
| `NodeRemoval.StuckForGood` | src/node.cpp:114-119 | once an interest has stopped the queue, none is attempted again in any run |
| `NodeRemoval.OversizeSticks` | src/node.cpp:107-120 | the run that expresses an interest too large while connecting reaches such a state, and no other interest is attempted after it |
| `NodeRemoval.LaterIsExpressed` | src/node.cpp:50-105 | any later interest can still be expressed there |
| `NodeRemoval.ConnectedForGood` | src/node.cpp:63-82 | once the connection is complete no transport is asked to connect again |
| `NodeSending.SentExactly` | src/node.cpp:497-534 | over any run, the interests sent are, once each and in order of expression, those attempted that were not dropped, are not local and not too large |
| `NodeSending.SentOnce` | src/node.cpp:523-533 | over any run, an interest is sent at most once, and not while it waits for the connection |
| `NodeSending.PendingWasSent` | src/node.cpp:523-533 | over any run, a pending interest that is not local and not too large has been sent |
| `NodeSending.StepSent` | src/node.cpp:497-534 | every step keeps what is sent exact |
| `NodeRemoval.DataReachesAll` | src/impl/pending-interest-table.cpp:68-83 | data ends every pending interest it matches, calls its onData, and leaves the others |
| `NodeRemoval.NackReachesAll` | src/impl/pending-interest-table.cpp:85-107 | a nack ends only the same interests with a nack callback; the others stay with their timers |
| `NodeTables.PendingInterestTable.Add` | src/impl/pending-interest-table.cpp:47-66 | a new entry, or none and the remove request consumed |
| `NodeTables.PendingInterestTable.ExtractEntriesForExpressedInterest` | src/impl/pending-interest-table.cpp:68-83 | the backward loop takes out, and marks, exactly the matching entries, and keeps the order of the others |
| `NodeTables.PendingInterestTable.ExtractEntriesForNackInterest` | src/impl/pending-interest-table.cpp:85-107 | likewise for nacks |
| `NodeTables.PendingInterestTable.RemovePendingInterest` | src/impl/pending-interest-table.cpp:109-137 | likewise by id, or a remove request kept once |
| `NodeTables.PendingInterestTable.RemoveEntry` | src/impl/pending-interest-table.cpp:139-159 | removes the entry itself, if it is still there |
| `NodeTables.InterestFilterTable.UnsetInterestFilter` | src/impl/interest-filter-table.cpp:43-58 | removes every filter with the id |
| `NodeTables.RegisteredPrefixTable.Add` | src/impl/registered-prefix-table.cpp:32-50 | a new entry, or none and the remove request consumed |
| `NodeTables.RegisteredPrefixTable.RemoveRegisteredPrefix` | src/impl/registered-prefix-table.cpp:52-85 | removes the entries and their filters, or keeps a remove request |
| `Node.Node.GetNextEntryId` | src/node.cpp:188-193 | the step that issues an id |
| `Node.Node.ExpressInterest` | src/node.cpp:50-105 | the step that expresses an interest; it throws if and only if the interest is attempted at once and is too large to send |
| `Node.Node.ExpressInterestHelper` | src/node.cpp:497-534 | one attempt, and whether it throws |
| `Node.Node.OnConnected` | src/node.cpp:107-120 | the step that reports the connection; it throws if and only if a waiting interest is too large to send |
| `Node.Node.SatisfyPendingInterests` | src/node.cpp:216-230 | the step that receives data |
| `Node.Node.OnNetworkNack` | src/node.cpp:458-482 | the step that receives a nack |
| `Node.Node.ProcessInterestTimeout` | src/node.cpp:536-542 | the removal of the entry itself is that of its id |
| `Node.Node.FireTimer` | src/node.cpp:402-409 | the step in which a delayed call is due |
| `Node.Node.RegisterResponse` | src/node.cpp:256-327 | the reply to a registration |
| `Node.Node.RegisterPrefix` | src/node.cpp:342-399 | the step that expresses the command interest under a new id, with or without a registration id, and when it throws |
| `Node.Node.RemovePendingInterest` | src/node.hpp:104-114 | the step that removes an interest |
| `Node.Node.RemoveRegisteredPrefix` | src/node.hpp:196-208 | the step that removes a registration |
| `Node.Node.SetInterestFilter` | src/node.hpp:227-235 | the step that sets a filter |
| `Node.Node.UnsetInterestFilter` | src/node.hpp:244-248 | the step that unsets a filter |
| `Exclude.Matches` | src/exclude.cpp:65-118 | for every list, the component is listed or between the nearest components around some ANY, or the list ends in two ANYs after a component and it is after the empty component; for any other list the scan answers what the list means |
| `Exclude.RunBounds` | src/exclude.cpp:75-99 | the bounds are the same all along a run of ANYs, so skipping it misses nothing |
| `Exclude.RangesExclude` | src/exclude.cpp:68-116 | an ANY between two components excludes what is strictly between, and one at an end reaches without end |
| `Exclude.RepeatedAny` | src/exclude.cpp:75-99 | a repeated ANY, anywhere in a list, means no more than one |
| `Exclude.TrailingAny` | src/exclude.cpp:71-73 | appending an ANY to a list that ends in one behind a component means no more, but makes the scan answer for everything after the empty component |
| `Exclude.TwoAnysExcludeTooMuch` | src/exclude.cpp:71-73 | a list ending so excludes components before its only component |
| `DelegationSet.Equals` | src/name.cpp:528-541 | name equality is equality of the component values |
| `DelegationSet.DelegationSet.Add` | src/delegation-set.cpp:65-82 | removes the name and inserts before the first entry that is not less |
| `DelegationSet.DelegationSet.Remove` | src/delegation-set.cpp:84-99 | removes every entry with the name, and counts a change if there was one |
| `DelegationSet.DelegationSet.Find` | src/delegation-set.cpp:110-119 | the first entry with the name, or -1 |
| `DelegationSet.RunCanonical` | src/delegation-set.cpp:65-99 | after any run from empty the list is strictly increasing, has no two equal names, and enumerates the map from name to last addition |
| `DelegationSet.RunByPreference` | src/delegation-set.cpp:36-45 | after any such run lower preferences come first, and equal ones in the canonical order of the names |
| `DelegationSet.SortedUnique` | src/delegation-set.cpp:36-45 | a map has one sorted enumeration |
| `DelegationSet.SameMapSameList` | src/delegation-set.cpp:65-99 | runs that end in the same map leave identical lists |
| `DelegationSet.SamePreferencesSameList` | src/delegation-set.cpp:65-99 | with generic components the preferences decide the list |
| `DelegationSet.AddLeavesOne` | include/ndn-cpp/delegation-set.hpp:125-134 | adding to any list, unsorted or with duplicates, leaves exactly one entry with the name and every other entry |
| `DelegationSet.DelegationSet.Assign` | src/delegation-set.cpp:54-63 | the other's list and current encoding, without a change |
| `DelegationSet.DelegationSet.WireEncode` | src/delegation-set.cpp:121-136 | the specified encoding with the cache |
| `DelegationSet.DelegationSet.WireDecode` | src/delegation-set.cpp:138-164 | the decoded list in its order, with a coherent cache; a decoding that fails leaves what was read, and no current encoding |
| `InterestMatch.MatchesName` | src/interest.cpp:232-251 | the name is prefixed by value, within the limits with the digest counted, and its next component is not excluded |
| `InterestMatch.MatchesData` | src/interest.cpp:253-321 | the staged checks are the single check of the full name and the key locator |
| `InterestMatch.NameAndDataChecks` | src/interest.cpp:232-321 | how the two checks relate for every length of the name; they agree for a name strictly longer than the Interest's |
| `InterestMatch.DigestNotNeeded` | src/interest.cpp:275-306 | the digest cannot change the answer for an Interest name shorter than the packet's |
| `InterestMatch.ExactDigest` | src/interest.cpp:275-284 | an Interest for the name and digest of a packet is satisfied by that packet, and by none with another digest |
| `InterestMatch.DigestExcluded` | src/interest.cpp:294-300 | an Interest that excludes the digest of a packet is not satisfied by it |
| `InterestMatch.SuffixLimits` | src/interest.cpp:238-245 | how many components may follow under each limit, the digest among them |
| `EncodingCache.EditIsUnseen` | include/ndn-cpp/util/change-counter.hpp:91-102 | a counted change of a child is noticed |
| `EncodingCache.RefreshedIsCurrent` | include/ndn-cpp/data.hpp:182-194 | the default encoding, if there is one, decodes to the current fields, and it is there if and only if nothing changed |
| `EncodingCache.EncodedIsCurrent` | src/data.cpp:177-194 | encoding returns an encoding of the current fields and caches it for the default format |
| `EncodingCache.DecodedCoherent` | src/data.cpp:196-210 | after decoding, the input is a current encoding |
| `EncodingCache.KeepsEncoding` | src/data.cpp:177-210 | a decoded packet is encoded as it came, and an encoded one again alike |
| `EncodingCache.ChangeIsCounted` | include/ndn-cpp/data.hpp:282-295 | getChangeCount moves if and only if the operation is a change |
| `EncodingCache.CachedEncodingIsCurrent` | include/ndn-cpp/data.hpp:282-308 | over every run of setters, counted edits, encodings and decodings the cached encoding decodes to the current fields |
| `EncodingCache.AssignedGoesUnnoticed` | include/ndn-cpp/util/change-counter.hpp:65-70 | an assignment to a child makes the cache wrong if and only if its count is the one seen and its value another |
| `PacketData.ChangeCounter.CheckChanged` | include/ndn-cpp/util/change-counter.hpp:91-102 | whether the child's count moved, which is then seen |
| `PacketData.Data.GetChangeCount` | include/ndn-cpp/data.hpp:282-295 | checks all three children and counts their changes as one |
| `PacketData.Data.GetDefaultWireEncoding` | include/ndn-cpp/data.hpp:182-194 | drops a stale encoding |
| `PacketData.Data.SetDefaultWireEncoding` | include/ndn-cpp/data.hpp:298-308 | caches an encoding as current |
| `PacketData.Data.SetSignature` | include/ndn-cpp/data.hpp:209-215 | a new child and a change |
| `PacketData.Data.SetName` | src/data.cpp:169-175 | a new child and a change |
| `PacketData.Data.WireEncode` | src/data.cpp:177-194 | the specified encoding with the cache |
| `PacketData.Data.WireDecode` | src/data.cpp:196-210 | the decoded fields with a coherent cache, or nothing changed |
| `PacketData.Data.GetFullName` | src/data.cpp:111-134 | the specified full name with its cache |
| `PacketData.Data.Assign` | src/data.cpp:75-89 | the other's fields and its raw encoding, and the full name cached before |
| `PacketData.CopyCoherent` | src/data.cpp:56-69 | a copy has the fields and is coherent |
| `PacketData.AssignCoherentIff` | src/data.cpp:75-89 | an assignment is coherent if and only if the raw encoding decodes to the other's fields |
| `PacketData.AssignedStaleEncoding` | src/data.cpp:75-89 | after an encoding, a change of the content and an assignment, the other object returns an encoding of the old content |
| `PacketFullName.RunKeepsName` | src/data.cpp:56-134 | over any run, assignments of packets and children and copies included, the cached name is the one made from the fields and the encoding it was last made from |
| `PacketFullName.FullNameIsCurrent` | src/data.cpp:56-134 | after any run, the full name returned is current if it is not taken from the cache or was made for the cached encoding and from the current name, and only then if the digest tells encodings apart |
| `PacketFullName.FullNameByEncoding` | src/data.cpp:56-134 | when no packet with a stale encoding and no child is assigned, whether it was made for the cached encoding decides alone |
| `PacketFullName.CurrentUnlessStored` | src/data.cpp:56-134 | it is current after any run in which no encode, decode or assignment stores an encoding other than the one the cached name was made for, or leaves it for other fields, whatever the digest |
| `PacketFullName.StoresOtherEncoding` | src/data.cpp:75-89 | when no packet with a stale encoding and no child is assigned, that is to store an encoding other than the one the name was made for |
| `PacketFullName.InPlaceCache` | include/ndn-cpp/util/change-counter.hpp:65-102 | a change of a child in place leaves an encoding in the cache only if the child's count is then the one last seen |
| `PacketFullName.MadeForThis` | src/data.cpp:121-131 | whenever the name is made, it is made from the fields and the encoding then cached |
| `PacketFullName.StoredMakesStale` | src/data.cpp:75-119 | an encode, decode or assignment that stores another encoding makes the very next full name a wrong one, if the digest tells encodings apart |
| `PacketFullName.AssignedKeepsName` | src/data.cpp:75-119 | after asking for the full name and a sound assignment of an encoded packet, the old full name is returned |
| `PacketData.StaleFullName` | src/data.cpp:114-119 | after a change of the content and an encoding, the old full name is returned |
| `PacketInterest.Interest.GetChangeCount` | include/ndn-cpp/interest.hpp:702-717 | checks all five children and counts their changes as one |
| `PacketInterest.Interest.GetDefaultWireEncoding` | include/ndn-cpp/interest.hpp:676-688 | drops a stale encoding |
| `PacketInterest.Interest.GetNonce` | include/ndn-cpp/interest.hpp:271-282 | drops the nonce after a change, without counting one |
| `PacketInterest.Interest.SetNonce` | include/ndn-cpp/interest.hpp:478-486 | a nonce that the next reading keeps |
| `PacketInterest.Interest.RefreshNonce` | src/interest.cpp:370-394 | draws until the nonce is another one, and replaces it only if it has not been dropped |
| `PacketInterest.Interest.WireEncode` | src/interest.cpp:142-161 | the specified encoding with the cache |
| `PacketInterest.Interest.Assign` | src/interest.cpp:37-60 | which fields are taken over, the current encoding, and that the next reading drops the nonce |
| `PacketInterest.AssignedNonceStaysEncoded` | src/interest.cpp:48-57 | after an encoding and an assignment, the other object returns an encoding with a nonce that it drops |
| `PacketInterest.NonceCoherentIff` | include/ndn-cpp/interest.hpp:271-282 | reading the nonce keeps the cache coherent if and only if the nonce is kept, was missing, or nothing is cached |
| `PacketInterest.DroppedNonceStaysEncoded` | include/ndn-cpp/interest.hpp:271-282 | a run after which the cached encoding has a nonce the object has not |
| `PacketInterest.InterestAssignIff` | src/interest.cpp:37-60 | an assignment is coherent if and only if no current encoding is taken over or the fields left out are the same |
| `PacketInterest.AssignedWithoutHint` | src/interest.cpp:37-60 | after an encoding and an assignment, the other object returns an encoding with a forwarding hint that it has not |
| `PacketInterest.InterestCopyCoherent` | include/ndn-cpp/interest.hpp:67-88 | a copy has the fields and is coherent, and keeps a nonce that the original would drop |

## Left out

- Big-endian memory: the XOR-3 store and the final swap of the byte-at-a-time engine are modelled for little-endian memory only.
- The update and final code around the OpenSSL block function, SHA-224 and the EBCDIC branches of Base64.
- Lengths beyond the range of `int` in Base64 and in names, and the wrap-around of 64-bit ids and change counts.
- Base64.DecodeBinary: needs a terminator after the run of codes, as the C string has; a run to the end of the buffer would read past it.
- Cryptosuite.EngineHmacIsHmac: is stated within the 32-bit byte count of the inner hash, outside of which the length field is already wrong.
- Null component values, a NUL character inside a URI, the overflow of atoi, and the regular-expression matcher.
- The hash of a component value is any function; MurmurHash3 is not part of this model.
- The magnitude of the byte compare: only its sign is used.
- Node: re-entrant callbacks are events in a log, so removing an id inside a callback of the same extracted batch is not modelled; exceptions from callbacks are caught and ignored by the code. Times and lifetimes: a timer may fire at any moment.
- Node: whether data matches an interest and whether two interests are the same are arbitrary predicates of the step; the loopback of interests and the dispatch of interests to filters are not modelled.
- Node: an asynchronous transport reports a connection once, after it was asked for, and callers use an id once, after it was issued; these are the conditions of the steps.
- Node.Node.RegisterPrefix: a registration with id 0, which the code does not record, is not told from others with id 0, so nothing is promised about how often such a one is settled.
- Registering: command signing and the control parameters; a registration is its id and which of its callbacks are set.
- The TLV formats: a wire format is any pair where decoding undoes encoding. The encoder fills in a random nonce when there is none, which no such pair does.
- PacketInterest.Interest.Assign: the object assigned from is another object.
- Signing, key chains, MetaInfo, transports, logging, the Lite core and the thread-safe wrappers.
