# A verified model of the ETSI GS QKD 004 example implementation

The C project implements the application interface of ETSI GS QKD 004 V2.1.1 (clause 6). An
application calls OPEN_CONNECT, GET_KEY and CLOSE. The three functions exist twice: as stubs in the
client library, which carry the call over a small binary protocol on TLS, and as the example key
server, which keeps a linked list of key streams and generates keys from hashed seeds. This project
models both sides and what lies between them, and proves

* that a call through the stub and the servlet is the call itself, exactly when both frames fit one
  TLS record, and that whole runs of calls are then transparent (`Wire`, `Client`);
* that two applications which open the same ordered pair get one stream and agreeing keys under every
  interleaving with other calls, equal ones or obliviously correlated ones (`KeyServer`,
  `KeyMaterial`), provided that the ids which the run mints are fresh, as they can be in every run that
  mints fewer than 2^128 (`Uuids`);
* that after any number of connections the server heap has grown by exactly four blocks to a
  registered stream and one to a successful GET_KEY, with no block freed twice or read after its
  release (`Registry`, `Servlet`, `AcceptLoop`);
* that the codec, the size calculators and the in-place writers agree byte for byte, within exact
  32-bit bounds (`Codec`, `Sizes`, `Serializers`, `Framing`);
* what the receive loop delivers for every fragmentation, and when that is what was sent
  (`Transport`);
* that the key log can be read back (`KeyLog`).

Values (messages, server states, records) are datatypes, with pure functions as specifications. What
the C code updates in place is a class: the cursors over a buffer, the list of streams with its nodes
and `next` pointers, the PRNG, the pipes of a connection, the heap, the log file. Each such method is
proved against the pure function, and the theorems are about the pure function.

The heap is a ledger. A pointer is the number of its block together with the contents of the block;
`Free` and `Load` require the block to be live. Numbers are never issued twice.

## Modules

| module | source |
|---|---|
| `Machine`, `Models`, `Memory`, `Bits` | words, data model, heap ledger, the bit operators of C |
| `KeyMaterial` | hash, seed, key generation, oblivious mask |
| `Uuids` | supplies of fresh UUIDs, and how far they reach |
| `KeyServer` | the three operations and runs of them, on values |
| `Registry` | the same server as a linked list on the heap |
| `Codec`, `Layout`, `Sizes`, `Serializers`, `Framing` | wire format, its bytes by offset, size calculators, cursors, framed buffers |
| `Transport` | TLS records and the receive loop |
| `Ownership`, `Interfaces`, `Servlet`, `AcceptLoop` | copies, releases, struct calls, servlet, server loop |
| `Wire`, `Client` | one remote call as a function on bytes; the client stubs |
| `KeyLog` | the file that keys are appended to |

## Where the code is not what one might expect

The model does what the code does in each of these places.

* `ssl_socket.c:42` reads to the start of the buffer, not behind what has been read, although the
  warning next to it speaks of reading the remaining part. A message that arrives in more than one
  read is therefore spoiled. `Transport.RecvExactIff` and `Wire.TransparentIff` give the exact
  condition; `Transport.OffsetReassembles` is about the variant that would reassemble.
* `sizes.c:5` adds in 32 bits, so that a byte field of more than 2^32 - 5 bytes gets a wrong size
  (`Sizes.SizeofBytesExact`).
* `write_key_to_file.c:26` prints an unsigned index with `%d` but takes as many characters as the
  unsigned number has digits (`KeyLog.IndexTextIff`).
* The server's `qkd_close` only reports success. No stream is ever released.
* The seed combines both names with XOR. Streams in opposite directions share their keys
  (`KeyServer.DirectionsShareKeys`), and a stream from a name to itself is seeded with the bare index
  (`KeyMaterial.LoopbackSeed`).
* A failing `qkd_get_key` leaves the caller's key buffer alone on the server and empties it in the stub
  (`KeyServer.OutParametersAgreeIff`).
* OPEN_CONNECT with an id that is not nil answers with that id, known or not, and does not look at the
  registry.
* `free_qkd_get_key_request` frees nothing. On failure the response still holds the metadata block of
  the request, and releases it; on success that block is leaked.

## Model

| member | source | states |
|---|---|---|
| KeyMaterial.SimpleHash | etsi-gs-qkd-004-c/src/server_example.c:32-41 | the loop computes the base-33 polynomial of the string modulo 2^32, without any intermediate wrap mattering |
| KeyMaterial.HashByDigits | etsi-gs-qkd-004-c/src/server_example.c:34-39 | the empty string hashes to 0, one character to itself, and every further character multiplies by 33 and adds, modulo 2^32 |
| KeyMaterial.HashConcat | etsi-gs-qkd-004-c/src/server_example.c:32-41 | hash(a + b) = hash(a) * 33^\|b\| + hash(b) modulo 2^32 |
| KeyMaterial.HashSuffix | etsi-gs-qkd-004-c/src/server_example.c:37 | with a common suffix, two strings collide exactly when their fronts do, because 33 is a unit modulo 2^32 |
| KeyMaterial.OneByteChangesHash | etsi-gs-qkd-004-c/src/server_example.c:32-41 | strings of equal length that differ in exactly one byte never collide |
| KeyMaterial.SeedBits | etsi-gs-qkd-004-c/src/server_example.c:45-48 | every bit of the seed is the exclusive or of that bit of both hashes and the index |
| KeyMaterial.SeedSymmetric | etsi-gs-qkd-004-c/src/server_example.c:45-48 | the seed does not tell source from destination |
| KeyMaterial.SeedSeparatesIndices | etsi-gs-qkd-004-c/src/server_example.c:45-48 | on one stream, two indices share a seed if and only if they are equal |
| KeyMaterial.SeedSeparatesSources | etsi-gs-qkd-004-c/src/server_example.c:45-48 | at one destination and index, two sources share a seed if and only if they collide under the hash |
| KeyMaterial.OneByteChangesSeed | etsi-gs-qkd-004-c/src/server_example.c:45-48 | changing one byte of the source always changes the seed |
| KeyMaterial.LoopbackSeed | etsi-gs-qkd-004-c/src/server_example.c:45-48 | a stream from a name to itself is seeded with the index alone |
| KeyMaterial.RawKeyAt | etsi-gs-qkd-004-c/src/server_example.c:59-62 | byte k of a key is the low byte of what call k + 1 of `rand` returns after seeding |
| KeyMaterial.DrawConcat | etsi-gs-qkd-004-c/src/server_example.c:57-62 | drawing is iterating the generator: m + n draws are m draws and then n |
| KeyMaterial.RawKeyPrefix | etsi-gs-qkd-004-c/src/server_example.c:57-62 | of two keys from one seed the shorter is a prefix of the longer |
| KeyMaterial.MaskBit | etsi-gs-qkd-004-c/src/server_example.c:91-94 | bit by bit: even bytes keep their even bits and have every odd bit set, odd bytes have their odd bits moved down and every odd bit cleared |
| KeyMaterial.MaskIsObliviousTransfer | etsi-gs-qkd-004-c/src/server_example.c:87-96 | a receiver byte is the masked sender byte if and only if each of its four slots is (c, m_c) for the sender's (m0, m1), with c = 1 on even bytes and c = 0 on odd ones |
| KeyMaterial.MaskedIsCorrelated | etsi-gs-qkd-004-c/src/server_example.c:87-96 | the same for whole keys: the mask computes the one key that is correlated with the sender's |
| KeyMaterial.ReceiverSeesChosenBitsOnly | etsi-gs-qkd-004-c/src/server_example.c:87-96 | two sender keys give one receiver key if and only if their chosen bits agree; unchosen bits have no influence |
| KeyMaterial.MaskedPrefix | etsi-gs-qkd-004-c/src/server_example.c:87-96 | masking keeps prefixes |
| KeyMaterial.Generator.PseudorandomKey | etsi-gs-qkd-004-c/src/server_example.c:43-64 | whatever the PRNG state was, byte k of the key is the low byte of call k + 1 of `rand` after seeding with the seed of the arguments, and the PRNG is left behind the last byte |
| KeyMaterial.Generator.ObliviousKey | etsi-gs-qkd-004-c/src/server_example.c:66-99 | every byte is the generator's byte for type 1 and the one byte correlated with it for type 2 |
| KeyServer.StepKeepsRegistry | etsi-gs-qkd-004-c/src/server_example.c:111-149 | every call keeps the registry invariant, loses, renames and reorders no stream, and appends one if and only if it is a nil-id OPEN_CONNECT of an unknown pair |
| KeyServer.RunKeepsRegistry | etsi-gs-qkd-004-c/src/server_example.c:101-213 | every run keeps the invariant and loses, renames and reorders no stream |
| KeyServer.StepRegisters | etsi-gs-qkd-004-c/src/server_example.c:111-149 | after a call a pair is registered if and only if it was before or the call opened it with the nil id |
| KeyServer.RunRegisters | etsi-gs-qkd-004-c/src/server_example.c:111-149 | the pairs registered after a run are exactly those registered before it and those opened with the nil id in it, each once by the invariant |
| Uuids.FreshSuppliesExist | etsi-gs-qkd-004-c/src/server_example.c:127 | a supply of n ids that are not nil and do not repeat exists if and only if n < 2^128 |
| KeyServer.FreshRunsExist | etsi-gs-qkd-004-c/src/server_example.c:127 | every run of fewer than 2^128 calls has a world in which the ids it mints are fresh; a run that mints 2^128 or more has none |
| KeyServer.ReachableRegistry | etsi-gs-qkd-004-c/src/server_example.c:111-149 | every reachable registry has at most one stream per ordered pair, and ids that are distinct and not nil |
| KeyServer.PersistentStream | etsi-gs-qkd-004-c/src/server_example.c:111-149 | the stream that an open of a pair returned stays at one position with one identity for the rest of every run |
| KeyServer.OpenIsStable | etsi-gs-qkd-004-c/src/server_example.c:113-133 | every later nil-id open of the pair, whatever QoS it asks for, returns the same id and leaves the registry unchanged |
| KeyServer.ChunkSizeIsStable | etsi-gs-qkd-004-c/src/server_example.c:113-173 | every later GET_KEY on the id returned succeeds with a key of the size that was registered before, or else that the opener asked for |
| KeyServer.KeysIgnoreHistory | etsi-gs-qkd-004-c/src/server_example.c:57-63 | a successful GET_KEY returns the same outcome when repeated after any run, although opens reseed the shared PRNG |
| KeyServer.TwoPartyAgreement | etsi-gs-qkd-004-c/src/server_example.c:111-200 | two applications that open one pair with the nil id, in every interleaving, hold one id, and GET_KEYs for one index succeed with keys that are equal when both are symmetric or sender callers or neither is, and correlated otherwise |
| KeyServer.MeetingAgrees | etsi-gs-qkd-004-c/src/client_example.c:25-60 | two opens of a pair and two GET_KEYs for one index are such a run, in every world whose first id is fresh, and give agreeing keys |
| KeyServer.SymmetricIsSenders | etsi-gs-qkd-004-c/src/server_example.c:177-187 | a symmetric caller gets the sender's key, whatever role it names |
| KeyServer.KeyByteIs | etsi-gs-qkd-004-c/src/server_example.c:173-193 | every byte of a key, from the names of its stream, the index, type and role: the generator's byte, or the byte correlated with it |
| KeyServer.GetKeySucceeds | etsi-gs-qkd-004-c/src/server_example.c:159-201 | on the first stream with the id, GET_KEY reports 0 with the index asked for, the key and the device information, and moves one counter and the PRNG |
| KeyServer.GetKeyFails | etsi-gs-qkd-004-c/src/server_example.c:167-171 | without such a stream it reports 3 and changes nothing |
| KeyServer.OpenKnown | etsi-gs-qkd-004-c/src/server_example.c:104-111 | OPEN_CONNECT with an id reports 0 and returns id and QoS; only the PRNG is reseeded |
| KeyServer.OpenPair | etsi-gs-qkd-004-c/src/server_example.c:111-149 | with the nil id it reports 0 and returns the first stream of the pair, or appends one with the QoS and names given and the next id |
| KeyServer.CloseDoesNothing | etsi-gs-qkd-004-c/src/server_example.c:204-213 | CLOSE reports 0 for every id and state, and leaves the state |
| KeyServer.DirectionsShareKeys | etsi-gs-qkd-004-c/src/server_example.c:43-99 | streams (A, B) and (B, A) have different ids and the same keys, up to the shorter chunk size |
| KeyServer.ShorterKeyIsPrefix | etsi-gs-qkd-004-c/src/server_example.c:173-193 | streams that seed alike hand out prefixes of one key in every type and role, masked or not |
| KeyServer.StepCounter | etsi-gs-qkd-004-c/src/server_example.c:133-200 | a counter starts at 0 and moves exactly when a GET_KEY on its stream succeeds |
| KeyServer.SucceedsIff | etsi-gs-qkd-004-c/src/server_example.c:167-201 | the GET_KEYs counted as served are those whose response reports success, and those that change the registry |
| KeyServer.CounterCountsServed | etsi-gs-qkd-004-c/src/server_example.c:200 | in every reachable state a counter is the number of GET_KEYs served on its stream, below `int` overflow |
| KeyServer.CountersAddUp | etsi-gs-qkd-004-c/src/server_example.c:200 | the counters of the registry add up to the GET_KEYs served |
| KeyServer.OutParametersAgreeIff | etsi-gs-qkd-004-c/src/qkd/ssl_socket_client.c:93-97 | what a stub assigns from the response is what the server function leaves in every out-parameter, if and only if the stream exists or the caller's key buffer was empty |
| Registry.StreamList.SearchPair | etsi-gs-qkd-004-c/src/server_example.c:113-122 | the walk ends at the first stream of the pair, or else at the last node |
| Registry.StreamList.SearchKsid | etsi-gs-qkd-004-c/src/server_example.c:159-165 | the walk ends at the first node with the id, or at NULL if and only if there is none |
| Registry.StreamList.Link | etsi-gs-qkd-004-c/src/server_example.c:136-148 | the new node becomes the last of the chain, all others keep their places and counters |
| Registry.StreamList.Append | etsi-gs-qkd-004-c/src/server_example.c:133-148 | the list stays acyclic, block-disjoint and true to its streams, with one more of them |
| Registry.StreamList.Count | etsi-gs-qkd-004-c/src/server_example.c:200 | one counter moves, every other stream and pointer stays |
| Registry.MakeNode | etsi-gs-qkd-004-c/src/server_example.c:128-134 | a node owns four new blocks that hold copies of the request's strings |
| Registry.Server.OpenConnect | etsi-gs-qkd-004-c/src/server_example.c:101-150 | on the heap, OPEN_CONNECT refines the pure one and allocates four blocks to a new stream and none otherwise |
| Registry.Server.MakeKey | etsi-gs-qkd-004-c/src/server_example.c:173-193 | type and role select between the raw key and the masked key of the stream at the index |
| Registry.Server.GetKey | etsi-gs-qkd-004-c/src/server_example.c:152-202 | on the heap, GET_KEY leaves the state and the out-parameters of the pure one; on failure the caller's key buffer and metadata block are handed back and nothing changes |
| Registry.Server.Close | etsi-gs-qkd-004-c/src/server_example.c:204-213 | CLOSE reports 0 and changes nothing |
| Layout.Uint32IsBigEndian | etsi-gs-qkd-004-c/src/qkd/serializers.c:8-14 | a word is written most significant byte first |
| Layout.QosLayout | etsi-gs-qkd-004-c/src/qkd/serializers.c:101-110 | seven words at offsets 0 to 24 in the order of the fields, then the mimetype and a NUL |
| Layout.BlobLayout | etsi-gs-qkd-004-c/src/qkd/serializers.c:41-49 | the length as a word, then the bytes |
| Layout.OpenRequestLayout | etsi-gs-qkd-004-c/src/qkd/serializers.c:147-152 | source and NUL, destination and NUL, QoS, id, at the offsets these lengths give |
| Layout.OpenResponseLayout | etsi-gs-qkd-004-c/src/qkd/serializers.c:168-172 | the status as a word, QoS, id |
| Layout.GetKeyRequestLayout | etsi-gs-qkd-004-c/src/qkd/serializers.c:186-190 | the id, the index as a word at 16, the metadata length at 20, the metadata at 24 |
| Layout.GetKeyResponseLayout | etsi-gs-qkd-004-c/src/qkd/serializers.c:205-210 | status at 0, index at 4, key length at 8, the key at 12, then metadata length and metadata |
| Layout.CloseLayout | etsi-gs-qkd-004-c/src/qkd/serializers.c:222-238 | a CLOSE request is its id, the response its status as a word |
| Layout.HeaderLayout | etsi-gs-qkd-004-c/src/qkd/serializers.c:247-253 | major, minor, micro, service, and the payload size in network order |
| Codec.Uint32Inverse | etsi-gs-qkd-004-c/src/qkd/serializers.c:8-24 | reading a big-endian word yields n and a rest if and only if the data is the word n followed by the rest |
| Codec.UuidInverse | etsi-gs-qkd-004-c/src/qkd/serializers.c:26-39 | the same for the 16 bytes of a UUID |
| Codec.BlobInverse | etsi-gs-qkd-004-c/src/qkd/serializers.c:41-63 | the same for length-prefixed bytes |
| Codec.StringInverse | etsi-gs-qkd-004-c/src/qkd/serializers.c:65-83 | the same for NUL-terminated strings |
| Codec.RoundTrip | etsi-gs-qkd-004-c/src/qkd/serializers.c:101-264 | decoding an encoded message or header followed by anything returns it and stops at what follows |
| Codec.Canonical | etsi-gs-qkd-004-c/src/qkd/serializers.c:101-264 | whatever decodes is the encoding of the value found, followed by the rest |
| Codec.DecodesExactlyEncodings | etsi-gs-qkd-004-c/src/qkd/serializers.c:101-264 | the decoders accept exactly the encodings |
| Codec.ExactPayload | etsi-gs-qkd-004-c/src/qkd/serializers.c:101-264 | data no longer than the encoding of a message decodes to it if and only if it is the encoding |
| Codec.StreamInverse | etsi-gs-qkd-004-c/src/qkd/serializers.c:101-264 | a concatenation of messages has one reading by the matching decoders, and reading inverts writing |
| Codec.PrefixFree | etsi-gs-qkd-004-c/src/qkd/serializers.c:101-264 | no encoding is a proper prefix of another of its kind |
| Sizes.SizeofBytesExact | etsi-gs-qkd-004-c/src/qkd/sizes.c:4-6 | the computed size of a byte field is its encoded length if and only if it has at most 2^32 - 5 bytes |
| Sizes.OpenRequestSize | etsi-gs-qkd-004-c/src/qkd/sizes.c:44-49 | the computed size is the encoded length if and only if the mimetype has at most 255 bytes; otherwise the calculator aborts |
| Sizes.OpenResponseSize | etsi-gs-qkd-004-c/src/qkd/sizes.c:51-55 | the same for the response |
| Sizes.GetKeyRequestSize | etsi-gs-qkd-004-c/src/qkd/sizes.c:57-61 | the computed size is the encoded length if and only if the metadata has at most 2^32 - 5 bytes |
| Sizes.GetKeyResponseSize | etsi-gs-qkd-004-c/src/qkd/sizes.c:63-68 | the same for key and metadata |
| Sizes.OpenRequestFrame | etsi-gs-qkd-004-c/src/qkd/ssl_socket_client.c:47-51 | the block allocated for a request frame has the length of what is written to it if and only if the message is shorter than 2^32 |
| Sizes.GetKeyRequestFrame | etsi-gs-qkd-004-c/src/qkd/ssl_socket_client.c:76-80 | the same for GET_KEY, where the size itself may wrap |
| Sizes.GetKeyResponseFrame | etsi-gs-qkd-004-c/src/qkd/ssl_socket_server.c:81-83 | the same for the response with its two byte fields |
| Sizes.CloseRequestSize | etsi-gs-qkd-004-c/src/qkd/sizes.c:70-72 | the computed size is the encoded length |
| Sizes.CloseResponseSize | etsi-gs-qkd-004-c/src/qkd/sizes.c:74-76 | the computed size is the encoded length |
| Sizes.WordsCarrySize | etsi-gs-qkd-004-c/src/qkd/ssl_socket_client.c:47-50 | the header field carries a size if and only if it is below 2^32, and the send call a frame if and only if it is below 2^31 |
| Serializers.OutStream.PutUint32 | etsi-gs-qkd-004-c/src/qkd/serializers.c:8-14 | the four bytes before the new cursor are the word, most significant first |
| Serializers.OutStream.PutBlob | etsi-gs-qkd-004-c/src/qkd/serializers.c:41-49 | the cursor appends the encoding in place and stays within the buffer |
| Serializers.OutStream.PutQos | etsi-gs-qkd-004-c/src/qkd/serializers.c:101-110 | eight writes through the cursor append the encoding of a QoS |
| Serializers.OutStream.PutOpenRequest | etsi-gs-qkd-004-c/src/qkd/serializers.c:147-152 | the writes append the encoding of the message |
| Serializers.OutStream.PutOpenResponse | etsi-gs-qkd-004-c/src/qkd/serializers.c:168-172 | the writes append the encoding of the message |
| Serializers.OutStream.PutGetKeyRequest | etsi-gs-qkd-004-c/src/qkd/serializers.c:186-190 | the writes append the encoding of the message |
| Serializers.OutStream.PutGetKeyResponse | etsi-gs-qkd-004-c/src/qkd/serializers.c:205-210 | the writes append the encoding of the message |
| Serializers.OutStream.PutCloseRequest | etsi-gs-qkd-004-c/src/qkd/serializers.c:222-224 | the write appends the encoding of the message |
| Serializers.OutStream.PutCloseResponse | etsi-gs-qkd-004-c/src/qkd/serializers.c:236-238 | the write appends the encoding of the message |
| Serializers.OutStream.PutHeader | etsi-gs-qkd-004-c/src/qkd/serializers.c:247-253 | the eight bytes before the new cursor are version, service and size, the size most significant byte first |
| Serializers.InStream.GetBlob | etsi-gs-qkd-004-c/src/qkd/serializers.c:51-63 | the reader consumes what the pure decoder consumes and puts the value in one new block |
| Serializers.InStream.GetString | etsi-gs-qkd-004-c/src/qkd/serializers.c:74-83 | the same for a string, found by looking for its NUL |
| Serializers.InStream.GetQos | etsi-gs-qkd-004-c/src/qkd/serializers.c:112-124 | the same for a QoS with its mimetype block |
| Serializers.InStream.GetOpenRequest | etsi-gs-qkd-004-c/src/qkd/serializers.c:155-166 | the reader agrees with the pure decoder and leaves three new blocks, the UUID block being freed |
| Serializers.InStream.GetOpenResponse | etsi-gs-qkd-004-c/src/qkd/serializers.c:174-184 | the same with one new block |
| Serializers.InStream.GetGetKeyRequest | etsi-gs-qkd-004-c/src/qkd/serializers.c:192-203 | the same with one new block |
| Serializers.InStream.GetGetKeyResponse | etsi-gs-qkd-004-c/src/qkd/serializers.c:212-220 | the same with two new blocks |
| Serializers.InStream.GetCloseRequest | etsi-gs-qkd-004-c/src/qkd/serializers.c:226-234 | the same with no block left |
| Serializers.InStream.GetCloseResponse | etsi-gs-qkd-004-c/src/qkd/serializers.c:240-245 | the same without a block |
| Serializers.InStream.GetHeader | etsi-gs-qkd-004-c/src/qkd/serializers.c:255-264 | the same for the header |
| Framing.FrameOpenRequest | etsi-gs-qkd-004-c/src/qkd/ssl_socket_client.c:47-54 | the cursor fills the buffer to its end, and the buffer is the encoded header followed by the encoded message |
| Framing.FrameGetKeyRequest | etsi-gs-qkd-004-c/src/qkd/ssl_socket_client.c:76-83 | the same for GET_KEY |
| Framing.FrameCloseRequest | etsi-gs-qkd-004-c/src/qkd/ssl_socket_client.c:106-113 | the same for CLOSE |
| Framing.FrameOpenResponse | etsi-gs-qkd-004-c/src/qkd/ssl_socket_server.c:65-71 | the same for the response of the servlet |
| Framing.FrameGetKeyResponse | etsi-gs-qkd-004-c/src/qkd/ssl_socket_server.c:81-87 | the same for GET_KEY |
| Framing.FrameCloseResponse | etsi-gs-qkd-004-c/src/qkd/ssl_socket_server.c:96-102 | the same for CLOSE |
| Transport.RecordsFlatten | etsi-gs-qkd-004-c/src/qkd/ssl_socket.c:69-75 | a write neither loses nor reorders bytes when it is cut into records |
| Transport.RecvDelivers | etsi-gs-qkd-004-c/src/qkd/ssl_socket.c:35-55 | for every fragmentation and every request but a full record, the loop ends with exactly n bytes counted and consumed, and the buffer is the overlay of all fragments at offset 0 |
| Transport.RecvByte | etsi-gs-qkd-004-c/src/qkd/ssl_socket.c:35-55 | byte k of what is received is the byte of the stream that the last read of more than k bytes found at its position k, and junk if there was none |
| Transport.RecvExactIff | etsi-gs-qkd-004-c/src/qkd/ssl_socket.c:27-67 | over every previous buffer content the message is what was sent, if and only if the first read returns all of it |
| Transport.FullRecordRequest | etsi-gs-qkd-004-c/src/qkd/ssl_socket.c:28-30 | a request for 0 or 16384 bytes returns the first read alone |
| Transport.OffsetReassembles | etsi-gs-qkd-004-c/src/qkd/ssl_socket.c:42 | a loop that read behind what it has would reassemble every fragmentation |
| Transport.ReadLoop | etsi-gs-qkd-004-c/src/qkd/ssl_socket.c:31-55 | the loop over the buffer array computes the pure receive loop |
| Transport.SocketRecv | etsi-gs-qkd-004-c/src/qkd/ssl_socket.c:27-67 | the message is a new block with the counted bytes of the buffer |
| Ownership.CopyStr | etsi-gs-qkd-004-c/src/qkd/copy.c:6-11 | the copy is a new block with the string; the old destination block is released |
| Ownership.CopyQos | etsi-gs-qkd-004-c/src/qkd/copy.c:21-30 | the copy has the value of the source and a mimetype block of its own |
| Ownership.FreeOpenRequest | etsi-gs-qkd-004-c/src/memory_free_utils.c:21-30 | exactly the three blocks of the request are released and their pointers nulled |
| Ownership.FreeOpenResponse | etsi-gs-qkd-004-c/src/memory_free_utils.c:32-35 | exactly the mimetype block is released |
| Ownership.FreeGetKeyRequest | etsi-gs-qkd-004-c/src/memory_free_utils.c:37-40 | nothing is released |
| Ownership.FreeGetKeyResponse | etsi-gs-qkd-004-c/src/memory_free_utils.c:42-46 | the metadata block is released, and the key block if there is one |
| Interfaces.OpenConnectStruct | etsi-gs-qkd-004-c/src/qkd/interfaces.c:11-31 | the struct call is the pure OPEN_CONNECT, with a deep copy of the QoS in the response |
| Interfaces.GetKeyStruct | etsi-gs-qkd-004-c/src/qkd/interfaces.c:33-52 | the struct call is the pure GET_KEY; on success key and metadata are two new blocks, on failure the response aliases the request's metadata |
| Interfaces.CloseStruct | etsi-gs-qkd-004-c/src/qkd/interfaces.c:54-68 | the struct call is the pure CLOSE |
| Servlet.ReleaseOpen | etsi-gs-qkd-004-c/src/qkd/ssl_socket_server.c:73-74 | four blocks are released, each once, and none outside the request's range |
| Servlet.ReleaseGet | etsi-gs-qkd-004-c/src/qkd/ssl_socket_server.c:89-90 | two blocks are released after success, and after failure the shared metadata once |
| Servlet.ServeOpen | etsi-gs-qkd-004-c/src/qkd/ssl_socket_server.c:60-74 | the branch leaves the state of the pure OPEN_CONNECT, its response frame, and a heap grown by the frame and the new stream |
| Servlet.ServeGet | etsi-gs-qkd-004-c/src/qkd/ssl_socket_server.c:75-90 | the branch leaves the state of the pure GET_KEY, its response frame, and a heap grown by the frame and, on success, the leaked request metadata |
| Servlet.ServeClose | etsi-gs-qkd-004-c/src/qkd/ssl_socket_server.c:91-102 | the branch leaves the state as it is and frames the response |
| Servlet.ServeConnection | etsi-gs-qkd-004-c/src/qkd/ssl_socket_server.c:13-112 | a connection that carries a call leaves the state of the call, exactly one response frame, and the heap growth of the call; the order to stop changes nothing and is not answered |
| AcceptLoop.Run | etsi-gs-qkd-004-c/src/qkd/ssl_socket.c:259-273 | over every sequence of connections: the state of the served calls, one response on each of their connections and none on any other, and four blocks of heap to a new stream and one to a successful GET_KEY |
| AcceptLoop.Program | etsi-gs-qkd-004-c/src/server_example.c:215-239 | started on an empty heap and registry, the server is in the reached state of the served calls, and exactly 4 * streams + sum of their counters blocks are live, below `int` overflow |
| AcceptLoop.UpIff | etsi-gs-qkd-004-c/src/qkd/ssl_socket.c:259-273 | the server still listens if and only if no connection so far brought the order to stop |
| AcceptLoop.CallsAre | etsi-gs-qkd-004-c/src/qkd/ssl_socket.c:260-268 | while it does, every request is served, in order |
| AcceptLoop.ReplyService | etsi-gs-qkd-004-c/src/qkd/ssl_socket_server.c:60-95 | the service code of a response is that of its request plus one |
| AcceptLoop.RepliesAccounted | etsi-gs-qkd-004-c/src/qkd/ssl_socket.c:259-273 | answered are exactly the requests made while the server is up, by one frame each; the order to stop alone ends the loop |
| AcceptLoop.SilentAfterShutdown | etsi-gs-qkd-004-c/src/qkd/ssl_socket_server.c:47-50 | after the order to stop nothing is served and nothing sent |
| AcceptLoop.HeapFollowsRegistry | etsi-gs-qkd-004-c/src/memory_free_utils.c:21-46 | from the initial state, live blocks = 4 * streams + sum of their counters, below `int` overflow |
| Wire.FrameLayout | etsi-gs-qkd-004-c/src/qkd/ssl_socket_client.c:47-54 | a frame is 2, 1, 1, the code of the service (2, 3, 4, 5, 8, 9), the payload size in network order, and the payload |
| Wire.HeaderArrives | etsi-gs-qkd-004-c/src/qkd/ssl_socket_server.c:21-23 | the header of every frame arrives intact, whatever its body and the buffer before |
| Wire.FitArrives | etsi-gs-qkd-004-c/src/qkd/ssl_socket_server.c:21-54 | a frame that fits one record arrives as header and body |
| Wire.UnfitSpoils | etsi-gs-qkd-004-c/src/qkd/ssl_socket.c:42 | a frame that does not fit arrives with a wrong body, or not at all, over some buffer content |
| Wire.UnderstoodIff | etsi-gs-qkd-004-c/src/qkd/ssl_socket_server.c:60-93 | the servlet understands the call made, over every buffer content, if and only if the request fits one record |
| Wire.ReportedIff | etsi-gs-qkd-004-c/src/qkd/ssl_socket_client.c:60-66 | the stub reports the outcome, over every buffer content, if and only if the response fits one record |
| Wire.TransparentIff | etsi-gs-qkd-004-c/src/qkd/ssl_socket_client.c:12-126 | a remote call is the direct call in what the server is asked, the state it leaves and what the caller is told, if and only if both frames fit one record |
| Wire.BoundsDecide | etsi-gs-qkd-004-c/src/qkd/ssl_socket_client.c:42-126 | the bounds that a caller can check on lengths decide whether no calculator aborts or wraps and both frames fit |
| Wire.RunIsTransparent | etsi-gs-qkd-004-c/src/qkd/ssl_socket_client.c:12-126 | over every run of calls within bounds, remote calls leave the states and report the outcomes of direct calls |
| Wire.RemoteTwoPartyAgreement | etsi-gs-qkd-004-c/src/client_example.c:8-70 | two-party agreement holds for applications that use the stubs |
| Wire.RemoteMeetingAgrees | etsi-gs-qkd-004-c/src/client_example.c:25-60 | two opens and two GET_KEYs through the stubs, within bounds on their arguments, give agreeing keys over every buffer content |
| Client.ReceiveResponse | etsi-gs-qkd-004-c/src/qkd/ssl_socket_client.c:21-39 | the payload arrives intact, and the header block stays allocated |
| Client.PerformRequest | etsi-gs-qkd-004-c/src/qkd/ssl_socket_client.c:12-40 | sending a request frame yields the encoded response of the direct call and leaves the server in its state |
| Client.StubOpenConnect | etsi-gs-qkd-004-c/src/qkd/ssl_socket_client.c:42-69 | the out-parameters and the server state are those of the direct OPEN_CONNECT; two client blocks more are live |
| Client.StubGetKey | etsi-gs-qkd-004-c/src/qkd/ssl_socket_client.c:71-100 | status, index, key, metadata and the server state are those of the direct GET_KEY; they are what the server function leaves in the caller's variables if and only if the stream exists or the key buffer was empty; three client blocks more are live, two of them the caller's |
| Client.StubClose | etsi-gs-qkd-004-c/src/qkd/ssl_socket_client.c:102-126 | the status is 0, and it and the server state are those of the direct CLOSE |
| Client.RemoteRun | etsi-gs-qkd-004-c/src/qkd/ssl_socket_client.c:42-126 | any sequence of calls through the stubs and the servlet, on both heaps, returns the outcomes and leaves the state of the direct calls |
| KeyLog.NumberOfDigits | etsi-gs-qkd-004-c/src/write_key_to_file.c:5-16 | the loop counts the characters of the decimal numeral |
| KeyLog.DecimalDigit | etsi-gs-qkd-004-c/src/write_key_to_file.c:26 | character k from the end of a numeral is the digit worth 10^k |
| KeyLog.AsIntIs | etsi-gs-qkd-004-c/src/write_key_to_file.c:26 | `%d` takes the index for the `int` with the same low 32 bits |
| KeyLog.SignedRoundTrip | etsi-gs-qkd-004-c/src/write_key_to_file.c:26 | the text printed reads back as that `int`, with a sign exactly if it is negative |
| KeyLog.IndexFitsIff | etsi-gs-qkd-004-c/src/write_key_to_file.c:20-26 | the printed number and its NUL stay within the 11 characters if and only if it is a non-negative `int` or a negative one above -10^9 |
| KeyLog.IndexTextIff | etsi-gs-qkd-004-c/src/write_key_to_file.c:26-27 | the index is written as its decimal numeral if and only if it is below 2^31 |
| KeyLog.NegativeIndexText | etsi-gs-qkd-004-c/src/write_key_to_file.c:26-27 | for larger indices the sign and the digits of the negative `int` are written, filled up to ten characters from the buffer |
| KeyLog.KeyTextBit | etsi-gs-qkd-004-c/src/write_key_to_file.c:31-36 | character 8 i + j of the key text is 1 exactly if byte i has the bit worth 2^(7 - j) |
| Bits.BitIsDigit | etsi-gs-qkd-004-c/src/write_key_to_file.c:34 | bit k of a number is its binary digit worth 2^k |
| KeyLog.AndPow2 | etsi-gs-qkd-004-c/src/write_key_to_file.c:34 | masking with a shifted one tests the bit |
| KeyLog.WriteByte | etsi-gs-qkd-004-c/src/write_key_to_file.c:33-35 | the inner loop writes the eight bits, most significant first |
| KeyLog.WriteKey | etsi-gs-qkd-004-c/src/write_key_to_file.c:18-40 | a log becomes the log with this entry appended if and only if the index is below 2^31 |
| KeyLog.EntryRoundTrip | etsi-gs-qkd-004-c/src/write_key_to_file.c:24-37 | reading one entry followed by anything returns the entry and what follows |
| KeyLog.LogRoundTrip | etsi-gs-qkd-004-c/src/write_key_to_file.c:18-40 | the parser inverts the printer on every log |
| KeyLog.LogIsDecodable | etsi-gs-qkd-004-c/src/write_key_to_file.c:18-40 | two sequences of entries produce one file if and only if they are equal |

## Left out

- TLS contexts, certificates, sockets, `accept`, `bind`, `connect` and the logging around them. A connection is two sequences of records; reads return at least one byte or report that the peer has closed.
- `srand`, `rand`, `time`, `uuid_generate_random` and `malloc` are parameters: any deterministic generator, the clock value of each call, a supply of UUIDs of which the theorems that need it require that those minted in the run are not nil and do not repeat (RFC 4122, sections 4.1.7 and 4.4), and an allocator that never fails.
- The text that `sprintf` prints for `device_info` is an arbitrary string shorter than its buffer, fixed by the configuration.
- Input outside the protocol: unknown service codes, payloads that do not decode, size fields that lie, and GET_KEY metadata of fewer than two bytes for an existing stream.
- The release of streams by CLOSE, which the example server does not implement.
- KeyServer.MeetingAgrees: both applications open with the nil id; the second open of `client_example.c` passes the id that the first returned, which answers with that id.
- `utils.c`, `client_api.c` and `wrapper.c`: printing, thin callers, and code that is not built.
- `size_t` is unbounded; 32-bit and `int` arithmetic is modelled where sizes pass through it.
- Blocks that are filled once, strings and byte fields, are immutable values behind their pointer; only buffers, keys and list nodes are updated in place.
- KeyServer.CounterCountsServed: past 2^31 - 1 the C increment is undefined; the model wraps as two's complement does, and the count itself is claimed below that bound.
- AcceptLoop.Run: the requests of a run carry at least two bytes of GET_KEY metadata, also where no stream makes the server read them; one connection may carry less.
- Wire.RunIsTransparent: the same holds for runs of remote calls; `Wire.TransparentIff` covers the single call with less.
- Servlet.ServeConnection: the request must be one that a stub sends in one record and the response must be one that no size calculator aborts or wraps on; the branch for unknown services is outside.
- Transport.SocketRecv: TLS errors are not modelled, and the exit of the process when the peer has closed is a NULL result.
- AcceptLoop.Program: the connections that clients will make, their handshakes and the clock are given beforehand, and the configuration of `main` is part of the `World`.
- Client.RemoteRun: the C code has no such loop; it stands for a client program that makes the calls one after the other.
- KeyLog.WriteIndex: indices whose printed form and NUL exceed the 11-character buffer are excluded, because C gives that write no meaning.
- Transport.OffsetReassembles: it is about a variant of the loop, for contrast with what the code does.
