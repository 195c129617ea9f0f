# MtProGo, modelled and proved

MtProGo is an MTProto client written in Go. This project models the parts of it where a
mistake is hard to see from one function, and proves what those parts promise:

- the number theory of the handshake and of the password login (`Factoring`, `KeyAgreement`,
  `PasswordHash`, over `Arithmetic`);
- the codec and the cryptographic layers, each with its inverse, and their composition into one
  round trip over a byte stream (`TL`, `IGE`, `RsaPadding`, `Abridged`, `Envelope`);
- the encrypted session as a state machine: identifiers, sequence numbers, nested containers,
  salts and the retry loop (`MessageIds`, `Messages`, `RequestLoop`, `Session`);
- the flag-driven parser of `updates.difference` against a serializer, on all byte strings
  (`Difference`, `DifferenceParser`), and against messages built field by field (`Posts`);
- the bot's indexes and caches against their histories (`ChatIds`, `Peers`, `PeerHistory`,
  `PeerIndex`, `Caches`, `Dispatcher`), and the chunked transfers (`Transfer`).

`Bytes`, `Primitives`, `Streams` and `Wrappers` hold what these share.

Conventions. Machine integers are subset types (`i32`, `i64`, `u32`, `u64`), and every place
where Go wraps, truncates or shifts is written out with `Wrap32`, `Wrap64`, `U32` or `U64`. A
byte format is a pair of functions: one writes, one reads a value off the front of a byte string
and returns the rest. Where both halves rest on a common definition (a flag bit, a key schedule, a
digit), a lemma says what that definition is on its own. The Go structures that change in place (`tlBuffer`, `tlReader`,
`encryptedState`, the bot's peer map, `MessageCache`, `PeerCache`, `Dispatcher`, the two halves of
a connection) are classes, and Go's loops are loops; each method is proved equal to such a
function, or to a function of its history. Hash functions, HMAC and the block cipher are
parameters: a hash is any function with digests of its length, a cipher is any family of block
permutations with its inverses. An error return is `None`, `Err` or an error value. A clock is any
function of the tick and the time offset, a random source and an inbound connection are finite
byte strings, and an outbound connection has room for finitely many bytes, so every statement
holds for every clock, every random stream and every moment of failure.

Results worth knowing, where the code does not do what one would expect:

- The Pollard search does not end on the number 1 (`Factoring.SearchStopsExactly`); it ends on
  every other odd number.
- Message identifiers leave the 64-bit range 2^31 seconds after the epoch
  (`MessageIds.CandidateExact`, `MessageIds.CandidateWraps`), and an identifier grows exactly as
  long as the counter does not have to step over the largest 64-bit integer
  (`MessageIds.NextIdIncreases`, `RequestLoop.RunIdsIncrease`).
- A frame with an empty payload can be written but not read back (`Abridged.ReadFrameOfFrame`).
- A byte string of 2^24 bytes or more is written but not read back (`TL.ReadBytesCode`), and a body
  of 2^32 bytes or more is lost by both envelopes (`Envelope.EnvelopeRoundTrip`,
  `Abridged.UnencryptedRoundTrip`).
- `padBigIntBytes` gives the announced width exactly when the number fits it
  (`Bytes.PadBigRoundTrip`).
- `stripSHA1AndPadding` looks for the longest prefix with the hash, so it returns what was added
  exactly when no longer prefix collides (`RsaPadding.StripAddedSHA1`).
- `RawChatID` undoes `NormalizeChatID` exactly on the ids listed by `ChatIds.Representable`; one
  channel id that overflows is, by accident, among them.
- Upload part numbers are right exactly up to 2^31 parts (`Transfer.PartNumbers`).
- The retry loop cannot end with "retry limit reached": the last error is always returned instead
  (`RequestLoop.RetryLimitUnreachable`).
- Every odd multiple of three above three is factored (`Factoring.MultiplesOfThree`).
- On a product of two odd primes the factor search comes back empty-handed exactly when, for each of
  the constants 1..19, the walks modulo the two primes (or modulo the prime and its square, when they
  are equal) first meet in the same round (`Factoring.FactorProduct`).
- A received packet may carry any padding that completes the last block, even none: the receiver
  does not check its length (`Envelope.AcceptedExactly`).
- On a range of clock readings around the epoch the time-based identifier is monotone exactly when the
  range starts at most one second before the epoch and ends before 2^31 seconds after it
  (`MessageIds.MonotoneExactly`); the first readings that fail are one nanosecond apart, one second
  before the epoch.
- An id seen with several kinds keeps one entry under its raw id and its current public id, but old
  public ids stay in the index (`PeerHistory.StaleKeyStays`), and then the order of a snapshot decides
  what a replay makes of it (`PeerIndex.SnapshotReplayExactly`).

## Model

| member | source | states |
|---|---|---|
| Factoring.WalkersMeet | mtproto/probe.go:209-219 | Floyd's argument: for every n >= 3 and every c some i between 1 and n puts both walkers on the same value |
| Factoring.SearchStops | mtproto/probe.go:213-219 | the inner loop reaches a gcd other than 1 within n rounds |
| Factoring.SearchStopsExactly | mtproto/probe.go:213-219 | on an odd n, for every c, the inner loop stops if and only if n is not 1 |
| Factoring.Search | mtproto/probe.go:209-219 | one run of the inner loop ends after at most n rounds, on the first gcd that is not 1, which divides n |
| Factoring.PollardRho | mtproto/probe.go:198-225 | a factor is a divisor of n above 1; it is n only for a declared prime or 2; for an odd composite candidate a factor is found if and only if one of the constants 1..19 splits n |
| Factoring.FactorPQ | mtproto/probe.go:183-196 | for every challenge but 1 and every answer of the primality test: minimal numerals of p and q with p*q = n and 1 < p <= q < n, or nothing, with the exact cases in which it is nothing |
| Factoring.OrbitModulo | mtproto/probe.go:227-232 | modulo a divisor, the walk is the walk of the divisor |
| Factoring.SplitsProduct | mtproto/probe.go:208-223 | a constant splits a product of two different odd primes if and only if the walks modulo the primes do not first meet in the same round |
| Factoring.SplitsSquare | mtproto/probe.go:208-223 | a constant splits the square of an odd prime if and only if the walks modulo the prime and modulo the square do not first meet in the same round |
| Factoring.FactorProduct | mtproto/probe.go:183-225 | on a product of two odd primes, equal or not, that is not taken for a prime, the result is exactly the two primes in order, or nothing if and only if no constant separates their walks |
| Factoring.StepDifference | mtproto/probe.go:227-232 | for all x, y, c and n > 0 the step multiplies differences by x + y modulo n, and takes 0 to c modulo n |
| Factoring.MultiplesOfThree | mtproto/probe.go:198-225 | every odd multiple of three except three itself is split by the constant 1 or 2, so the search never gives up on one |
| Factoring.FactorTriple | mtproto/probe.go:183-225 | factorPQ on three times any odd prime returns three and that prime |
| Factoring.FactorFifteen | mtproto/probe.go:183-225 | factorPQ on the single byte 15 returns the bytes 3 and 5 |
| Bytes.PadBigRoundTrip | mtproto/auth.go:459-467 | the padded numeral decodes to the number, and has the asked width if and only if the number fits |
| KeyAgreement.ModExpCommutes | mtproto/auth.go:373-376 | raising to d then e equals raising to e then d, with reductions anywhere |
| KeyAgreement.PowersOfBase | mtproto/auth.go:373-376 | the power is the one of big.Int.Exp: exponent 0 gives 1, exponent 1 the base, one more multiplies by the base, all modulo m |
| KeyAgreement.DHAgreement | mtproto/auth.go:363-376 | the server, from the client's g_b and its own exponent, gets the client's auth key, byte for byte; both encodings are exactly as long as the prime |
| KeyAgreement.UnmaskServerPublic | mtproto/password.go:120-143 | subtracting k*v modulo p, with its early reduction, recovers g^b from the server's B |
| KeyAgreement.SecretsAgree | mtproto/password.go:142-150 | the client's (g^b)^(a+ux) and the server's (A*v^u)^b are the same number modulo p, for all a, b, u, x and p > 0 |
| KeyAgreement.HonestServerAnswers | mtproto/password.go:94-146 | for all parameters the client supports, every private key and every server exponent there is such an honest exchange |
| KeyAgreement.SRPAcceptance | mtproto/password.go:94-146 | against an honest server, whose B comes from its own multiplier over the bytes of p, a proof is built if and only if B, A, g^b and the u the server hashes are all non-zero |
| KeyAgreement.SRPAgreement | mtproto/password.go:90-166 | a proof carries A = g^a in exactly as many bytes as p, and its M1 is the hash of the one transcript a server puts together by itself: masked hash of p, both salt hashes, the A bytes it received, its B padded to the width of p, the hash of the secret from its verifier, exponent and u |
| KeyAgreement.TranscriptUnique | mtproto/password.go:152-163 | the positions of the transcript leave no choice: two strings that satisfy them are equal |
| PasswordHash.BlockIndexExact | mtproto/password.go:323-326 | the four bytes of a block index decode to it if and only if it is below 2^32 |
| PasswordHash.DeriveBlock | mtproto/password.go:328-341 | folding each iteration into the buffer in place gives U_1 xor ... xor U_iter of section 5.2 of RFC 8018 |
| PasswordHash.Pbkdf2 | mtproto/password.go:314-345 | the result is the derived key of section 5.2 of RFC 8018, empty when no iterations or bytes are asked for |
| PasswordHash.DerivedKeyPrefix | mtproto/password.go:314-345 | a longer key extends a shorter one |
| PasswordHash.DerivedKeyBits | mtproto/password.go:314-345 | every bit of a derived key: bit b of byte j in the block with some four-byte number is the parity of that bit over the chain of hashes that starts at the salt and that number |
| PasswordHash.RandomBelow | mtproto/password.go:347-361 | the result is the first draw of the stream strictly between zero and the bound, and what follows that draw is left |
| PasswordHash.OneDrawForEach | mtproto/password.go:352-358 | every number below the bound is produced by exactly one draw, so the choice is not biased |
| Bytes.XorBytes | mtproto/crypto.go:39-45 | the loop computes the bytewise exclusive or |
| Bytes.XorCancel | mtproto/crypto.go:39-45 | masking twice with the same bytes gives the original back |
| Bytes.XorBitsAt | mtproto/crypto.go:39-45 | every bit of the exclusive or is set if and only if exactly one of the two is |
| Bytes.ReverseBytes | mtproto/crypto.go:47-53 | the loop reverses |
| Bytes.EqualBytes | mtproto/crypto.go:245-254 | the comparison that folds all differences into one byte is equality |
| TL.ReadIntCode | mtproto/tl.go:26-26 | a word reads back, with what follows untouched |
| TL.ReadLongCode | mtproto/tl.go:27-27 | a double word reads back, with what follows untouched |
| Bytes.LEDigits | mtproto/tl.go:26-27 | byte i of a written word is its digit of weight 256^i |
| Bytes.FromBEReversed | mtproto/auth.go:459-467 | a big-endian numeral is the little-endian one of the reversed bytes |
| Bytes.WrapsCongruent | mtproto/invoke.go:212-219 | a conversion to 32 or 64 bits keeps the value modulo the word and is the identity on the range of the type |
| TL.ReadBytesCode | mtproto/tl.go:35-49 | a written byte string reads back, with what follows untouched, if and only if it is shorter than 2^24 |
| TL.BytesLayout | mtproto/tl.go:35-49 | the bytes of a string on the wire: length in one byte or behind 254 in three, lowest first, the payload, zeros to a whole word |
| TL.TlBuffer.PutBytes | mtproto/tl.go:35-49 | appends the byte-string format: header, payload, zeros up to a word |
| TL.TlReader.Int | mtproto/tl.go:58-65 | reads a word as the format says, on every byte string; the offset never decreases or leaves the buffer |
| TL.TlReader.Long | mtproto/tl.go:67-74 | the same for a double word |
| TL.TlReader.Raw | mtproto/tl.go:76-83 | the same for n bytes, failing on negative n |
| TL.TlReader.ByteString | mtproto/tl.go:85-116 | the same for a byte string with its padding loop |
| IGE.DecryptEncrypt | mtproto/crypto.go:135-197 | decryption undoes encryption for every block permutation, carried state and number of blocks |
| IGE.EncryptDecrypt | mtproto/crypto.go:135-197 | encryption undoes decryption, so the two are two-sided inverses |
| IGE.EncryptConcat | mtproto/crypto.go:147-163 | encrypting a concatenation is encrypting the halves with the last blocks carried across |
| IGE.SealOpenInverse | mtproto/crypto.go:135-197 | under every key and 32-byte vector the two directions are inverse and keep the length |
| IGE.SealBlocks | mtproto/crypto.go:147-163 | block i of the ciphertext is the encryption of plaintext block i masked with ciphertext block i-1, masked with plaintext block i-1; the vector stands for the two blocks before the first |
| IGE.AesIGEEncrypt | mtproto/crypto.go:135-165 | the buffer loop computes the mode; it fails if and only if a size is wrong |
| IGE.AesIGEDecrypt | mtproto/crypto.go:167-197 | the same for decryption |
| RsaPadding.RsaStepUndone | mtproto/crypto.go:122-133 | the encrypted number has 256 bytes and the private exponent gives the block back |
| RsaPadding.RsaPadRecoverable | mtproto/crypto.go:82-133 | whatever the random stream, a result has 256 bytes and the private-key holder recovers from it 192 bytes that start with the data and pass the hash check |
| RsaPadding.RsaPad | mtproto/crypto.go:82-120 | up to 32 attempts on the random stream, each skipped when its block is not below the modulus, with what follows the last one left; nothing for long data or another key size |
| RsaPadding.StripSHA1AndPadding | mtproto/crypto.go:229-243 | returns the longest prefix with the announced hash that leaves at most 15 bytes, and nothing if and only if there is none |
| RsaPadding.StripAddedSHA1 | mtproto/crypto.go:213-243 | stripping what was added returns the data if and only if no longer prefix of data and padding has the same hash |
| Abridged.ReadFrameOfFrame | mtproto/abridged.go:15-55 | a framed packet reads back and leaves the rest of the stream if and only if it is not empty |
| Abridged.FrameBytes | mtproto/abridged.go:15-34 | the bytes of a frame: words in one byte below 127, or behind 127 in three, lowest first, then the payload |
| Abridged.StreamDecodes | mtproto/abridged.go:15-55 | the stream of any sequence of non-empty packets decodes to exactly that sequence with nothing left over |
| Abridged.FramesUnique | mtproto/abridged.go:15-55 | two packet sequences never give the same stream |
| Abridged.AbridgedWrite | mtproto/abridged.go:15-34 | writes exactly the frame, or a prefix of it when the connection fails; refuses the other lengths |
| Abridged.AbridgedRead | mtproto/abridged.go:36-55 | takes exactly one frame off every byte stream, or fails |
| Abridged.BuildUnencryptedMessage | mtproto/abridged.go:57-67 | header, body and zeros up to a word |
| Abridged.ParseUnencryptedMessage | mtproto/abridged.go:69-93 | reads the body on every byte string, or fails as the source does |
| Abridged.UnencryptedRoundTrip | mtproto/abridged.go:57-93 | the body comes back if and only if it is shorter than 2^32 bytes |
| Abridged.UnencryptedBytes | mtproto/abridged.go:57-67 | eight zero bytes, the id, the length, the body and zeros, each at its place |
| Envelope.EnvelopeRoundTrip | mtproto/invoke.go:320-417 | in either direction, parsing what was built gives the same salt, session, id, number and body, for every padding, if and only if the body is shorter than 2^32 bytes |
| Envelope.PacketSizes | mtproto/invoke.go:329-336 | padding is 12 to 27 bytes, the plaintext is whole blocks and the packet whole words |
| Envelope.AcceptedExactly | mtproto/invoke.go:359-417 | a payload is accepted with a message if and only if it is a packet of that message, padded to whole blocks |
| Envelope.EndToEnd | mtproto/invoke.go:320-417 | the framed packets of any messages, read frame by frame and parsed, are exactly those messages in order |
| Envelope.KeyIVBytes | mtproto/invoke.go:570-582 | key and vector byte by byte: at positions 8 to 23 the key has the second hash and the vector the first, elsewhere the other way round |
| Envelope.MsgKeyBytes | mtproto/invoke.go:320-417 | the message key is bytes 8 to 23 of the hash over bytes 88 to 119 of the auth key, 96 to 127 for the server, and the padded plaintext |
| Envelope.PlainBytes | mtproto/invoke.go:320-336 | salt, session, id, number, length, body and padding, each at its place in the plaintext |
| Envelope.PacketBytes | mtproto/invoke.go:337-349 | key id, message key and sealed plaintext, each at its place in the packet |
| MessageIds.CandidateExact | mtproto/invoke.go:223-227 | from the epoch on, the candidate is the exact time-based identifier if and only if the clock is before 2^31 seconds |
| MessageIds.CandidateMonotone | mtproto/invoke.go:223-227 | from one second before the epoch up to 2^31 seconds after it the candidate is monotone in the clock reading |
| MessageIds.MonotoneExactly | mtproto/invoke.go:223-227 | on a range of readings around the epoch the candidate is monotone if and only if the range starts at most one second before the epoch and ends before 2^31 seconds after it |
| MessageIds.MonotoneFromEpoch | mtproto/invoke.go:223-227 | on a range of readings from the epoch on the candidate is monotone if and only if no wrap-around of the shift lies between its ends; they come every 2^32 seconds, the first after 2^31 |
| MessageIds.CandidateWraps | mtproto/invoke.go:223-227 | at that moment it drops from a positive number to the least 64-bit integer |
| MessageIds.SecondBeforeEpoch | mtproto/invoke.go:223-227 | one second before the epoch the candidate is far below the one a nanosecond earlier |
| MessageIds.NextIdIncreases | mtproto/invoke.go:228-233 | an identifier exceeds the one before if and only if the candidate does or adding four does not overflow |
| MessageIds.NextIdAligned | mtproto/invoke.go:228-233 | from an id divisible by four the next is divisible by four, and larger if and only if the id was not the largest such 64-bit integer; after that one the counter wraps to the least |
| MessageIds.IdRunProperties | mtproto/invoke.go:221-235 | for every trace of candidates, in any order: identifiers increase strictly, are divisible by four, are not below their candidates, and the k-th exceeds the largest candidate by at most 4k |
| MessageIds.SeqNoWraps | mtproto/invoke.go:212-219 | counting in 32 bits sends the numbers that counting without bound would |
| MessageIds.SeqNoOdd | mtproto/invoke.go:212-219 | sequence numbers of requests are odd, and 2k+1 for the first 2^30 |
| Messages.ReadChildOfCode | mtproto/invoke.go:434-454 | a container entry reads back, with its alignment skipped |
| Messages.FlattenTree | mtproto/invoke.go:419-460 | flattening the encoding of any tree of containers, however nested, gives its leaves from left to right |
| Messages.ScanTree | mtproto/invoke.go:419-522 | the outcome and salt for any encoded tree are those of one scan over its leaves |
| Messages.ScanConcat | mtproto/invoke.go:434-459 | scanning a concatenation is scanning the halves with the salt carried, unless the first half ends it |
| Messages.ScanEnds | mtproto/invoke.go:461-502 | a scan that yields a result found an rpc_result for the request; one that ends in bad_server_salt leaves the salt it carries |
| Messages.ScanNotification | mtproto/invoke.go:503-516 | for every id, number and code, the bytes of a bad_msg_notification end the scan with exactly these three in their fields and leave the salt |
| Messages.ScanBadSalt | mtproto/invoke.go:484-502 | the bytes of a bad_server_salt end the scan with their four fields and install the salt they carry |
| Messages.ScanNewSession | mtproto/invoke.go:471-483 | the bytes of a new_session_created end nothing and install the salt behind its two identifiers |
| Messages.ScanResult | mtproto/invoke.go:461-470 | the bytes of an rpc_result for the request end the scan with what its payload says |
| Messages.ScanIgnored | mtproto/invoke.go:461-521 | results for other requests, acknowledgements and unknown constructors change neither the request nor the salt |
| Messages.ScanTruncated | mtproto/invoke.go:419-516 | a body too short for a constructor, or for the fields of the one it has, is an error and installs no salt |
| Messages.ErrorPayload | mtproto/invoke.go:533-543 | the bytes of an rpc_error raise its code and its trimmed text |
| Messages.PackedPayload | mtproto/invoke.go:544-560 | the bytes of a compressed result yield the decompressed ones under their own constructor, marked as compressed, or fail when they do not decompress or are shorter than a constructor |
| Messages.PlainPayload | mtproto/invoke.go:561-567 | any other payload is handed over unchanged, under its constructor and not marked as compressed |
| Session.EncryptedState.HandleMessage | mtproto/invoke.go:419-522 | on every byte string the recursion terminates and gives the outcome and the final salt of a left-to-right scan of the flattened leaves, stopping at the first result or error; what each kind of leaf says is stated on its serialized bytes by the Scan and Payload rows above |
| Session.EncryptedState.HandleContainer | mtproto/invoke.go:429-460 | the entry loop does the same for the rest of a container |
| Session.EncryptedState.ParseRpcResult | mtproto/invoke.go:524-568 | result, remote error or failure, as the format says, with the compressed case unpacked |
| Session.EncryptedState.NextMsgId | mtproto/invoke.go:221-235 | the next identifier from the clock and the last identifier |
| Session.EncryptedState.NextSeqNo | mtproto/invoke.go:212-219 | the number for a request or another message, with 32-bit wrap-around, and the counter after it |
| Session.EncryptedState.BuildEncryptedPacket | mtproto/invoke.go:320-349 | the packet of the current salt and session, the given id, number and body and some padding of the right length; it fails if and only if randomness runs out |
| Session.EncryptedState.ParseEncryptedPacket | mtproto/invoke.go:359-417 | accepts exactly what the envelope format accepts, on every byte string |
| RequestLoop.WaitMeaning | mtproto/invoke.go:258-295 | a result heard on a byte stream comes from an rpc_result for the request in the last message received; one that ends in bad_server_salt leaves the announced salt |
| RequestLoop.WaitIsOneScan | mtproto/invoke.go:258-295 | waiting does to the request and to the salt what one scan over the leaves of all messages received does, whatever frames and containers they came in |
| RequestLoop.WaitHearsServer | mtproto/invoke.go:258-295 | from a server sending any messages of which the last settles the request, exactly these are received, with the outcome and salt of their scan, and what follows stays unread |
| RequestLoop.RetriesAnswered | mtproto/invoke.go:237-298 | when the server's messages, whatever else they contain, reject the first packets for any retriable reason, clock corrections included, and answer the next, a run with enough attempts, randomness and room ends with that answer, one packet per round, each round heard exactly and what follows unread |
| RequestLoop.SaltRetriesAnswered | mtproto/invoke.go:237-298 | for bare bad_server_salt replies followed by an answer, in closed form: the id of the answered packet and the salt in force at the end |
| RequestLoop.NoticesAnswered | mtproto/invoke.go:237-318 | on encoded bytes: when the first packets are rejected by bad_server_salt or by bad_msg_notification with code 16, 17, 32, 33 or 48, in any mix, and the next is answered by an rpc_result, a run ends in that answer after one packet per reply, and ids, salt, clock offset and clock readings are those the notices say in closed form |
| RequestLoop.NotificationEnds | mtproto/invoke.go:269-307 | on encoded bytes: a bad_msg_notification with any other code ends the run after one packet, with that error |
| RequestLoop.SendSucceeds | mtproto/invoke.go:240-257 | a packet is sent if and only if there is randomness for its padding, it fits a frame and the connection has room, in numbers that depend on the body's length alone |
| RequestLoop.RunExplained | mtproto/invoke.go:237-298 | at most as many packets as attempts, each with the body, the i-th sequence number and the salt its predecessor's reply left; each reply is what the inbound bytes unread by then say about that packet's id; all but the last failed retriably |
| RequestLoop.RunEnds | mtproto/invoke.go:237-298 | the answer is the last reply's result, the last reply's error when it asks for no retry or no attempt is left, and otherwise the failure to send the next packet |
| RequestLoop.AnswerIsForLastPacket | mtproto/invoke.go:269-294 | an answer comes from an rpc_result, in the last message received, whose request id is that of the last packet sent |
| RequestLoop.AnnouncedSaltIsUsed | mtproto/invoke.go:274-277 | a packet sent right after a bad_server_salt carries exactly the salt it announced |
| RequestLoop.RetryLimitUnreachable | mtproto/invoke.go:294-297 | no run ends in the retry limit error |
| RequestLoop.RunIds | mtproto/invoke.go:221-241 | whatever the clock and the offset do, every id of a run is divisible by four and larger than the one before it (the session's last id for the first) if and only if that was not the last id there is; the session's counter stays divisible by four |
| RequestLoop.RunIdsIncrease | mtproto/invoke.go:221-241 | the ids of a run increase strictly if and only if none is drawn after the last id there is |
| RequestLoop.RunWrites | mtproto/invoke.go:239-262 | a run writes exactly the frames of its packets, and part of one more only when a write fails; the salt and the unread bytes afterwards are those of the last reply |
| RequestLoop.ServerReadsRun | mtproto/invoke.go:237-298 | a server reading those bytes recovers exactly the messages of the run, in order |
| Session.EncryptedState.AdjustTimeOffset | mtproto/invoke.go:309-318 | the new offset, or none for other codes and ids without seconds, and the clock readings taken |
| Session.EncryptedState.Await | mtproto/invoke.go:258-295 | outcome, final salt and bytes left are those of waiting on the inbound bytes, for every byte string |
| Session.EncryptedState.SendPacket | mtproto/invoke.go:240-257 | the whole state afterwards, the id and the failure are those of sending from the state before, also when randomness or room runs out |
| Session.EncryptedState.Invoke | mtproto/invoke.go:237-298 | the answer and everything changed, in the session, on the connection and in the random source, are those of the run with three attempts from the state before; the retry limit error is never returned |
| Difference.ReadMessageCode | mtproto/difference.go:239-402 | reading a message inverts writing it for every combination of supported flags, any entities and texts below 2^24 bytes, with what follows untouched; which field a flag announces is stated by Posts.ReadPost |
| Difference.UnsupportedRejected | mtproto/difference.go:239-402 | a message with a flag the parser does not implement is rejected whatever its bytes |
| Difference.MessagesFromCodes | mtproto/difference.go:212-237 | a vector of messages reads back as its non-empty messages, in order, each with its own bytes |
| Difference.UpdatesFromCodes | mtproto/difference.go:167-210 | a vector of updates reads back up to the first update of another kind |
| Difference.ReadDifferenceCode | mtproto/difference.go:82-145 | the messages of a written difference are exactly its non-empty new messages followed by those of its updates, in order, with ids, peers, date, text and raw bytes |
| Posts.FlagWordBit | mtproto/difference.go:257-402 | for every set of bit numbers, the sum of their powers of two has bit k set if and only if k is in the set |
| Posts.ReadPost | mtproto/difference.go:257-402 | a message whose optional fields are there or not, in any combination, with flags words summed from the fields present and any further bits that the parser does not refuse, is read back with its id, sender, chat, date and text, and what follows untouched |
| Posts.ReadPlainMessage | mtproto/difference.go:257-402 | word by word: constructor, flags 256 and 0, id, a user as sender, a group as chat, date and text are read back as exactly that message |
| Posts.MarkReads | mtproto/difference.go:431-511 | every text mark, by kind, has the shape the parser skips |
| Posts.ReadReport | mtproto/difference.go:82-237 | a difference of such messages, empty entries and updates, with updates of other kinds behind them, is read back as exactly its messages in order, each with its own bytes |
| Posts.ReadShortReports | mtproto/difference.go:94-112 | an empty difference gives its date and sequence number, one that is too long its counter |
| DifferenceParser.ParsePeer | mtproto/difference.go:409-429 | reads a peer as the format says, on every byte string |
| Difference.TriedBounded | mtproto/difference.go:212-237 | whatever its count word, a vector loop tries at most one element more than the input has room for |
| DifferenceParser.SkipMessageEntities | mtproto/difference.go:431-511 | skips exactly the entities; its rounds are the entities up to and including the first failure, at most one per twelve bytes of input and one more |
| DifferenceParser.SkipEmptyVector | mtproto/difference.go:147-165 | accepts exactly an empty vector |
| DifferenceParser.ParseTextMessage | mtproto/difference.go:239-402 | agrees with the format on every byte string; the offset never decreases or leaves the buffer |
| DifferenceParser.ParseMessageVector | mtproto/difference.go:212-237 | the same for the vector; its rounds are the messages up to and including the first failure, at most one per twelve bytes of input and one more |
| DifferenceParser.ParseUpdateVector | mtproto/difference.go:167-210 | the same for updates; its rounds are the updates up to and including the first that fails or carries no message, at most one per 24 bytes of input and one more |
| DifferenceParser.ParseDifferenceResult | mtproto/difference.go:82-145 | the whole parser agrees with the format on every byte string, keeping the messages read before a later part fails |
| ChatIds.RawChatIDUndoesNormalize | updates/message.go:27-59 | the raw id comes back if and only if the id is representable, stated for every positive id and chat type |
| ChatIds.PublicIDForms | updates/message.go:27-59 | public ids of the three forms lie in disjoint ranges |
| PeerIndex.IndexMatchesHistory | mtproto_bot.go:516-578 | after every history in which no id changes its class the index holds exactly the merged summaries, each under exactly its raw and public id |
| PeerHistory.LookupsAgree | mtproto_bot.go:576-589 | after every history of sightings with carried ids, raw id and current public id of a seen peer give the same entry, whatever kinds it was seen with |
| PeerHistory.LookupAnyForm | mtproto_bot.go:580-589 | an id asked for in any form is answered if and only if it was seen, with a peer of that raw id, and in a form it never had with its current entry |
| PeerHistory.PublicIDByKind | mtproto_bot.go:576-578 | users keep their id, basic groups get -id, channels and supergroups -10^12 - id |
| PeerHistory.OtherKeysKept | mtproto_bot.go:516-574 | sightings of other ids leave a key as it was |
| PeerHistory.IndexedByHistory | mtproto_bot.go:516-578 | after every such history both current keys of every seen id hold its entry, and every other key an older one of the same id |
| PeerHistory.EntryKind | mtproto_bot.go:541-548 | the kind of an entry is the last one seen, except that a channel ever seen as a supergroup is one |
| PeerHistory.EntryFields | mtproto_bot.go:531-560 | access hash, username and title of an entry are the last non-empty ones seen |
| PeerHistory.SharedIdMerges | mtproto_bot.go:531-574 | an id seen as a user and then as a channel has one entry, a channel with the user's name |
| PeerHistory.StaleKeyStays | mtproto_bot.go:562-574 | an id seen as a group and then as a channel keeps its old group key |
| PeerIndex.EntryIsSummary | mtproto_bot.go:531-560 | when no id changes its class, the entry is the plain merge of its sightings in order |
| PeerIndex.SnapshotReplayExactly | mtproto_bot.go:405-422 | after any history, every snapshot, whatever its order, replays into an empty index to the same index if and only if every key holds the current entry of its id, and that is also exactly when every replay answers every lookup alike |
| PeerHistory.KeysOfHistory | mtproto_bot.go:516-578 | the keys of the index are exactly the ids seen and the public ids their entries have had |
| PeerIndex.OneEntryEachExactly | mtproto_bot.go:516-578 | every key holds the current entry of its id if and only if no entry has had a public id other than its raw id and its current one |
| PeerIndex.SnapshotReplay | mtproto_bot.go:405-422 | when no id changes its class, a snapshot in any order, replayed into an empty index, rebuilds the same index |
| PeerIndex.Bot.RememberPeers | mtproto_bot.go:516-574 | the index stays the one of the whole history of sightings |
| PeerIndex.Bot.GetPeer | mtproto_bot.go:580-589 | the entry under the id, or under its raw id |
| PeerIndex.Bot.SnapshotPeers | mtproto_bot.go:405-422 | every kind and id of the index once, whatever order the map is visited in |
| PeerIndex.Bot.ToUpdate | mtproto_bot.go:591-621 | the fields of the dispatched message, its chat type refined by the index |
| PeerIndex.Bot.Receive | mtproto_bot.go:591-647 | after every history of sightings with carried ids: the chat id of a dispatched message resolves to the peer whose id is the raw chat id, and decodes to it; the chat type is that of the peer's kind; chat and sender are remembered under the kinds the message gives them, the sender found under its id; every key and entry of any other id stays |
| Caches.RingStep | updates/cache.go:81-88 | overwriting the oldest slot and stepping on drops the oldest message and appends the new one |
| Caches.MessageCache.Add | updates/cache.go:72-89 | the ring keeps being the last `limit` messages ever added, in order |
| Caches.MessageCache.All | updates/cache.go:111-137 | returns the last `limit` messages ever added, in order |
| Caches.MessageCache.Last | updates/cache.go:92-108 | returns the last n of them |
| Caches.FifoRunProperties | updates/cache.go:176-222 | after any run of puts ids are distinct and not zero, at most `limit` remain, each entry is the latest put under its id and the last put is present |
| Caches.FifoKeepsArrivals | updates/cache.go:176-222 | the ids kept are the last `limit` that came in, in that order, where a put comes in when its id is not among the last `limit` that did |
| Caches.FifoPutStep | updates/cache.go:176-195 | one put leaves the new peer and otherwise only old ones, once each |
| Caches.PeerCache.Put | updates/cache.go:176-195 | order list and map together stay the insertion-ordered list that evicts its oldest entry |
| Caches.PeerCache.Get | updates/cache.go:198-206 | the latest peer put under the id, if it has not been evicted |
| Caches.PeerCache.All | updates/cache.go:209-222 | all entries in insertion order |
| Dispatcher.Dispatcher.OnMessage | updates/dispatcher.go:106-114 | appends the route; no handler is ignored, no filter accepts everything |
| Dispatcher.Dispatcher.MatchingRoutes | updates/dispatcher.go:154-165 | the accepting routes in registration order |
| Dispatcher.MatchingIndices | updates/dispatcher.go:154-165 | the matching routes are those at exactly the positions whose filters accept, in registration order |
| Dispatcher.AcceptedByMode | updates/dispatcher.go:167-183 | the accepted messages mode by mode: none without room or in the first mode, all, those the cache filter accepts, or those some route accepts |
| Dispatcher.MessagePeers | updates/dispatcher.go:185-199 | a kept or wanted message leaves its chat last put under its id with the chat's type or the guess, and another sender as a user; any other message and any other id leave the puts as they were |
| Dispatcher.HandledPrefix | updates/dispatcher.go:144-151 | the routes that run are a prefix of those that match, and it is a proper one only after a failure |
| Dispatcher.Dispatcher.RunHandlers | updates/dispatcher.go:144-151 | the log of handler calls grows by exactly those routes in order; success if and only if every matching handler succeeds |
| Dispatcher.Dispatcher.DispatchMessage | updates/dispatcher.go:128-199 | extends the history by the message under the current routes and keeps both caches equal to what the policy makes of it; the log of handler calls grows by exactly the routes due, none when updates are disabled, and each call found the caches already updated; it succeeds if and only if every handler it was meant to run does |
| Dispatcher.Dispatcher.CachedContents | updates/dispatcher.go:128-199 | after any run the message cache is the last `limit` messages of the accepted subsequence and the peer cache the reference run of all puts |
| Transfer.NormalizePartSize | mtproto/media.go:522-539 | the largest multiple of 1024 up to the request; 32 KiB for smaller requests, 512 KiB for larger ones and for none |
| Transfer.ChunksLossless | mtproto/media.go:178-228 | the chunks joined are the content and all but the last have exactly the part size |
| Transfer.ChunkCount | mtproto/media.go:180-184 | rounding up counts the chunks, with one for empty content |
| Transfer.PartNumbers | mtproto/media.go:205-210 | parts are numbered 0 .. parts-1 if and only if there are at most 2^31, and a big file's announced total is true if and only if there are fewer |
| Transfer.RoundsSucceed | mtproto/media.go:187-228 | an upload succeeds if and only if the reader has the bytes of all chunks and the server accepts every one; then all are sent and the reader is past them |
| Transfer.RoundsSent | mtproto/media.go:187-228 | every part sent had its bytes, and all but the last sent were accepted |
| Transfer.RoundsStop | mtproto/media.go:201-223 | a failed upload stopped because its last part was not accepted or because the reader lacks the bytes of the next, with the reader left accordingly |
| Transfer.UploadFile | mtproto/media.go:167-235 | the server sees the chunks of the first `size` bytes in order, each once, exactly as far as the rounds go; the result is the number of chunks if and only if the reader has them all and every one is accepted |
| Transfer.FetchesMeaning | mtproto/media.go:265-304 | a download succeeds if and only if the writer has room for all that is wanted and none of the calls a whole download takes, counted in advance, fails; then it has gone exactly that far: to the end of the file, or to the limit |
| Transfer.FetchesConsecutive | mtproto/media.go:270-278 | the i-th request is for the i-th part, cut to what the limit leaves |
| Transfer.FetchesCount | mtproto/media.go:270-303 | a successful download takes one call per part of the limit, or one per full part of the file and one more to see its end, and no download takes more |
| Transfer.DownloadFile | mtproto/media.go:265-304 | the requests made, how far it gets and the result are exactly those of the rounds, and what is written is always a prefix of the file of that length |

## Left out

- Factoring.FactorPQ: the challenge 1 is excluded, because the search does not end on it (Factoring.SearchStopsExactly).
- PeerIndex.IndexMatchesHistory: that the index holds nothing but the two current keys of each id needs each id to keep its class; PeerHistory.StaleKeyStays shows a key left over otherwise. Lookups and replays have no such hypothesis (PeerHistory.LookupsAgree, PeerIndex.SnapshotReplayExactly).
- PeerHistory.LookupsAgree: ids that are not positive, or that their public form cannot carry (group ids from 10^12 on, channel ids that overflow), are excluded.
- MessageIds.MonotoneFromEpoch: ranges of clock readings that end before the epoch; ranges around it are in MessageIds.MonotoneExactly.
- Transfer.UploadFile: sizes from 2^52 on, where the source's floating-point part count may be off; checksum, progress callback and file name are not modelled.
- Transfer.DownloadFile: a redirect to another data centre's file server counts as a failed call.
- Session.EncryptedState.Invoke: deadlines and contexts; that correcting the clock offset makes the server accept the request is not claimed, only that ids keep increasing.
- KeyAgreement.SRPAgreement: the private key x and the exponent a are numbers; that x comes from nested salted hashes around the derivation of `PasswordHash` is not repeated there.
- Concrete AES, SHA-1, SHA-256, SHA-512, HMAC, gzip and the primality test: parameters. The RSA law (the private exponent undoes the public one) is a hypothesis.
- `validateDHParams`, nonce checks and the answers to `set_client_DH_params`: straight-line comparisons.
- The heuristic scans of a difference body for peers and state: the state scan is a parameter, the peers it finds are sightings like any other.
- The size hint passed to `make` when a vector of messages or updates is parsed is the count word itself, up to 2^32 - 1 and not bounded by the input, so a body of a few bytes can ask for an allocation that fails; the parser's claims are about the loops after it.
- The order in which the bot forwards remembered peers to the dispatcher's peer cache: puts are events of the dispatcher there.
- `mergeUpdateState`, a few independent comparisons, and `reconnectBackoff`, a loop that doubles a 64-bit duration up to a maximum.
- Data-centre migration, flood waits, reconnecting, the HTTP Bot API, session files, PEM keys, sockets, mutexes and goroutines.
- Handlers are functions from a message to success or failure, and their calls are logged; what else they do is not modelled.
