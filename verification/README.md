# The ESAPI crypto layer of tpm2-tss, modelled in Dafny

The project models `src/tss2-esys/esys_crypto.c`, the hash/HMAC context lifecycle that the OpenSSL and
mbedTLS backends supply to it, the crypto callback table, the elliptic-curve coordinate encodings and the
ownership rules of `Esys_Initialize` / `Esys_Finalize`, and proves what they promise. Run
`dafny verify dfyconfig.toml` in this directory.

## How it is laid out

- `Tss.dfy`, `Bytes.dfy`: return codes, algorithm ids, C pointers as `Option`; big-endian numbers, the
  first-byte mask, bitwise and / xor from their bits, overwriting a buffer (`Splice`).
- `Kdf.dfy`: `Primitives.Crypto` keeps the digest and the HMAC as arbitrary functions of known result length.
  `Kdf` is KDFa (section 11.4.10.2 of TPM 2.0 Library Part 1 rev 1.38), KDFe (section 11.4.10.3) and XOR
  obfuscation (section 21.2) as functions: block messages, the block stream, the masked output, the keystream.
- `AuthMessages.dfy`: the byte strings behind cpHash / rpHash (sections 18.7 and 18.8) and the session HMAC
  (section 19.6.5).
- `ContextMachine.dfy`: start / update / finish / abort as one machine on values (`Step`, `Run`), the library's
  decision on each call being an arbitrary `Verdict`.
- `PointerCells.dfy`: the same calls made through the caller's context pointers, which start, finish and abort
  write; every `context_free` of a run is recorded, one through a dangling pointer included.
- `Backends.dfy`: what each backend's library calls decide (`Decide`), given an arbitrary schedule of failing
  calls; agreement of the two; `SessionRc`, `Held`, `Leaks`, `Accounted`: outcome and heap effect of a whole
  start-to-finish computation, read off the schedule and the arguments.
- `CryptoBackend.dfy`: the backends as a class. Its fields are the live contexts by address, the clock of
  library calls and the counts of allocated library objects. Every library call consults the schedule
  `env.faults`; what a failing call leaves behind is arbitrary (`env.debris`). Freeing needs the object to be
  allocated, and using a context needs it to be live, so double free and use after free are excluded by proof.
- `Sessions.dfy`: `Begin`, `Feed`, `End`, `Quit`, the calls of one computation with what each establishes.
- `EsysCrypto.dfy`: `PHash`, `AuthHmac`, `KDFaHmac`, `KDFa`, `KDFe`, `XorObfuscation`, with their loops, moving
  write offset, in-place data, threaded counter and error labels.
- `Results.dfy`: what those contracts amount to for a caller.
- `Coordinates.dfy`, `Callbacks.dfy`: the coordinate encodings, the callback table.
- `EsysLifecycle.dfy`: the lifecycle of an ESYS_CONTEXT through the application's pointers. Its struct, its SYS
  block and a loader TCTI are resources that are acquired and released; every release is recorded.

## Modelling choices

- Library and allocator failures, their debris, the loader's and the SYS layer's failures and the result of the
  init callback are parameters. The theorems are for all of them.
- 32-bit arithmetic is explicit: counters and `bitLength + 7` wrap modulo 2^32, and `data_size * 8` reaches KDFa
  modulo 2^32.
- Output buffers are arrays; where the C code cannot know their size (KDFa, KDFe) the caller's obligation is the
  exact number of bytes written.
- OpenSSL is modelled as version 3 or later. Hash and HMAC functions whose bodies differ only in the type tag
  share one method with a `kind` parameter.
- `KDFa` dereferences contextU and contextV when it logs them; the model follows the path with logging compiled
  out, where `KDFaHmac` answers a NULL context with BAD_REFERENCE.
- The branch of `Esys_Finalize` for a failing `Tss2_Sys_GetTctiContext` is modelled, but that function fails only on
  a NULL argument and `Esys_Finalize` passes none: in this repository the branch is never taken (`AllReleased`).
- The fifteen test-and-set macro calls of the callback setter are a loop over their order.
- The four-byte and one-byte marshal calls cannot fail with the arguments used here, so their error branches are
  not modelled.

## Where the code does less than its documentation or cleanup labels suggest

- `iesys_crypto_authHmac` calls the hash abort on an HMAC context and `iesys_crypto_KDFe` the HMAC abort on a hash
  context; both backends ignore an abort of the wrong kind. `MismatchedSessionAccounts` and
  `MismatchedDerivationAccounts` give the exact accounting, `LeaksWithoutFaultsIff` and `KdfeWithoutFaults` the
  conditions a caller can check (a buffer too small for authHmac, a NULL key for KDFe), `AuthHmacLeakExample`,
  `KdfeLeakExample` and `KdfeNullKeyExample` concrete calls.
- For the seven largest 32-bit bit lengths the size wraps to zero: KDFa derives a single block and KDFe answers
  BAD_VALUE (`Bytes32Wraps`).
- A NULL label, or contexts of unknown size, cannot be told apart in a KDFa message (`NullLabelCollides`,
  `MessagesEqualIff`), nor command from response parts in a parameter hash (`PatternsCollide`).
- The two backends disagree on SM3 (`BackendsAgreeIff`) and feed KDFe different bytes when a coordinate has a
  leading zero byte (`KdfeInputsAgreeIff`).
- A failed `Esys_SetCryptoCallbacks` leaves the fields before the missing one changed (`SetField`).

## Model

| member | source | states |
|---|---|---|
| `Bytes.Be32Value` | src/tss2-mu/base-types.c:23-76 | the four bytes of a marshaled UINT32, most significant first, denote it, as Value and spelled out |
| `Bytes.BitXorBits` | src/tss2-esys/esys_crypto.c:697-698 | each of the eight bits of a byte xor is set exactly when the two operands differ in it |
| `Kdf.DerivedKeyIsTruncatedStream` | src/tss2-esys/esys_crypto.c:529-546 | for every bit length up to 2^32-8 the first ceil(bits/8) bytes, as a big-endian number, are the unmasked block stream's prefix modulo 2^bits and below 2^bits |
| `Kdf.Bytes32Wraps` | src/tss2-esys/esys_crypto.c:578-596 | the 32-bit size is ceil(bits/8) except for the seven largest lengths, where it is 0; it is 0 exactly for those and for length 0 |
| `Kdf.BlocksIsCeiling` | src/tss2-esys/esys_crypto.c:533-544 | the number of blocks the fill loop writes is the least that covers the size, and at least one |
| `Kdf.StreamLength` | src/tss2-esys/esys_crypto.c:533-544 | n blocks are exactly n times the digest size |
| `Kdf.StreamAppend` | src/tss2-esys/esys_crypto.c:527-548 | a derivation cut anywhere, with the counter threaded through, yields the same bytes as one derivation |
| `Kdf.KdfaBlock` | src/tss2-esys/esys_crypto.c:448-472 | a KDFa block is the HMAC under the key of counter, label with its NUL when given, U, V and bit length, in this order |
| `Kdf.KdfeBlock` | src/tss2-esys/esys_crypto.c:600-629 | a KDFe block is the hash of counter, Z, label with its NUL, partyU and partyV, those given, in this order |
| `Kdf.StreamBlock` | src/tss2-esys/esys_crypto.c:533-544 | bytes j*hlen to (j+1)*hlen are the digest of the message with counter c0+j+1 |
| `Kdf.MessagesDistinctIff` | src/tss2-esys/esys_crypto.c:448-469 | the block messages of one run are pairwise distinct exactly while there are at most 2^32 of them |
| `Kdf.DecodeMessage` | src/tss2-esys/esys_crypto.c:448-469 | counter, label, U, V and bit length are read back from a KDFa message given only the size of U and whether there is a label |
| `Kdf.DecodeKdfeMessage` | src/tss2-esys/esys_crypto.c:600-629 | counter, Z, label, partyU and partyV are read back from a KDFe message given which parts are there and the sizes of Z and partyU |
| `Kdf.MessagesEqualIff` | src/tss2-esys/esys_crypto.c:448-469 | two KDFa messages, labelled or not, coincide exactly when counter and bit length agree and label++U++V agree; between labelled ones that is label and U++V |
| `Kdf.NullLabelCollides` | src/tss2-esys/esys_crypto.c:453-457 | every labelled message is also the message of an unlabelled derivation |
| `Kdf.ObfuscationIsInvolution` | src/tss2-esys/esys_crypto.c:649-703 | applying XOR obfuscation twice with the same arguments restores data of every length |
| `Kdf.KeystreamIsOneShot` | src/tss2-esys/esys_crypto.c:674-702 | for 8*size < 2^32 the chunked keystream is the first size bytes of what one KDFa call with that bit length and counter 0 derives |
| `AuthMessages.PHashInjective` | src/tss2-esys/esys_crypto.c:285-309 | with presence pattern and sizes of rc, cc and names fixed, the hashed message determines every part |
| `AuthMessages.PHashLayout` | src/tss2-esys/esys_crypto.c:285-309 | where each part of the hashed message lies: rc, cc, name1, name2, name3, then the parameters to the end; an absent part takes no bytes |
| `AuthMessages.AuthInjective` | src/tss2-esys/esys_crypto.c:369-393 | with presence pattern and sizes fixed, the HMAC message determines every part |
| `AuthMessages.AuthLayout` | src/tss2-esys/esys_crypto.c:369-393 | where each part of the HMAC message lies: pHash, nonceNewer, nonceOlder, decrypt and encrypt nonce where given, the attribute byte last |
| `AuthMessages.PatternsCollide` | src/tss2-esys/esys_crypto.h:64-71 | without the pattern a response hash message is also a command hash message |
| `ContextMachine.RefusedCallsChangeNothing` | src/tss2-esys/esys_crypto_ossl.c:179-333 | starts without an out pointer or HMAC key and NULL, wrong-kind and too-small calls get BAD_REFERENCE or BAD_SIZE, wrong-kind aborts are ignored, and no context changes |
| `ContextMachine.RunKeepsValid` | src/tss2-esys/esys_crypto_ossl.c:179-333 | over every run each live context keeps the digest length of its algorithm |
| `PointerCells.RunAtIsSafe` | src/tss2-esys/esys_crypto_ossl.c:179-525 | over every run through the caller's pointers, whatever the library does, no call receives a dangling pointer, each non-NULL pointer leads to a live context and no two to the same one, and creations and frees of each context balance with whether it is live |
| `PointerCells.PointerAfter` | src/tss2-esys/esys_crypto_ossl.c:202-333 | the pointer leads to the new context after a start that made one, is NULL after a finish or abort that freed the context, and is otherwise untouched |
| `PointerCells.FreedAtMostOnce` | src/tss2-esys/esys_crypto_ossl.c:270-333 | over every such run no context is freed twice, a freed one is gone, and one created and not freed is live |
| `PointerCells.BackendCellsAreSafe` | src/tss2-esys/esys_crypto_mbed.c:59-394 | in either backend, on every schedule of library failures, from NULL pointers: no dangling pointer, and each context created is freed once or still live |
| `ContextMachine.MessageAccumulates` | src/tss2-esys/esys_crypto_ossl.c:232-257 | over every run interleaved with refused calls and calls on other contexts, a context has absorbed exactly the concatenation of its updates |
| `ContextMachine.WholeRunDigest` | src/tss2-esys/esys_crypto_ossl.c:270-309 | start, any such run, finish: the digest written is that of the concatenated updates and the context is gone |
| `ContextMachine.UpdatesFeedPieces` | src/tss2-esys/esys_crypto_mbed.c:128-148 | any partition of a message into updates feeds the message |
| `Backends.BackendsAgreeIff` | src/tss2-esys/esys_crypto_mbed.c:76-94 | on every call sequence without a library failure both backends give the same replies and live contexts, exactly when no SM3 context is started |
| `Backends.StartRcOfFirstFailure` | src/tss2-esys/esys_crypto_ossl.c:366-416 | the code of a start follows from the first step that fails: MEMORY while the context is allocated, NOT_IMPLEMENTED for the digest look-up or an unknown algorithm, GENERAL_FAILURE after it |
| `Backends.FinishThenAbortFrees` | src/tss2-esys/esys_crypto_ossl.c:289-333 | in either backend, whatever the library does to a finish, the matching abort then leaves the context freed and the others untouched |
| `Backends.MismatchedAbortLeaksIff` | src/tss2-esys/esys_crypto.c:400-402 | with the other kind's abort a context is left exactly when start succeeded and an update failed, the buffer was missing or too small, OpenSSL failed to finish a hash, or the table lacks update or finish |
| `CryptoBackend.Backend.OsslContextNew` | src/tss2-esys/esys_crypto_ossl.c:81-98 | succeeds exactly when both allocations do; otherwise nothing stays allocated |
| `CryptoBackend.Backend.OsslContextFree` | src/tss2-esys/esys_crypto_ossl.c:100-111 | gives back each object the context holds, once |
| `CryptoBackend.Backend.OsslPrepare` | src/tss2-esys/esys_crypto_ossl.c:366-416 | the code is that of the first failing step; whichever of the library calls fails, exactly what was taken is given back |
| `CryptoBackend.Backend.OsslStart` | src/tss2-esys/esys_crypto_ossl.c:179-220 | hash and HMAC start are a step of the context machine and keep the object counts equal to those of the live contexts |
| `CryptoBackend.Backend.OsslUpdate` | src/tss2-esys/esys_crypto_ossl.c:428-452 | both updates are a step of the context machine |
| `CryptoBackend.Backend.OsslHashFinish` | src/tss2-esys/esys_crypto_ossl.c:270-309 | hash finish is a step of the context machine; after a library failure the context stays with the caller |
| `CryptoBackend.Backend.OsslHmacFinish` | src/tss2-esys/esys_crypto_ossl.c:466-499 | HMAC finish is a step of the context machine; the context is freed in either case |
| `CryptoBackend.Backend.OsslAbort` | src/tss2-esys/esys_crypto_ossl.c:506-525 | both aborts are a step of the context machine |
| `CryptoBackend.Backend.MbedPrepare` | src/tss2-esys/esys_crypto_mbed.c:71-116 | the code is that of the first failing step; whichever library call fails, exactly what was taken is given back |
| `CryptoBackend.Backend.MbedStart` | src/tss2-esys/esys_crypto_mbed.c:234-293 | hash and HMAC start are a step of the context machine |
| `CryptoBackend.Backend.MbedUpdate` | src/tss2-esys/esys_crypto_mbed.c:305-325 | both updates are a step of the context machine |
| `CryptoBackend.Backend.MbedFinish` | src/tss2-esys/esys_crypto_mbed.c:339-371 | both finishes are a step of the context machine; the context is always freed |
| `CryptoBackend.Backend.MbedAbort` | src/tss2-esys/esys_crypto_mbed.c:378-394 | both aborts are a step of the context machine |
| `CryptoBackend.Backend.Start` | src/tss2-esys/esys_crypto.c:109-150 | a NULL table entry gives CALLBACK_NULL; otherwise the code, the new context and the untouched others |
| `CryptoBackend.Backend.Update` | src/tss2-esys/esys_crypto.c:116-158 | exact code; the context has absorbed the data on success; no other context changes |
| `CryptoBackend.Backend.Finish` | src/tss2-esys/esys_crypto.c:124-166 | exact code; the digest in place, its size and the context freed on success; who holds the context on failure, the size untouched unless OpenSSL's HMAC finish fails in the library; nothing outside hash_len bytes written |
| `CryptoBackend.Backend.Abort` | src/tss2-esys/esys_crypto.c:132-177 | frees the context and nulls the pointer exactly when the entry is bound and the kind matches |
| `EsysCrypto.PHash` | src/tss2-esys/esys_crypto.c:261-319 | the exact code for every schedule of failures; on success the hash of rc? cc name1? name2? name3? buffer; with the abort bound the live contexts are as before whichever call fails |
| `EsysCrypto.AuthHmac` | src/tss2-esys/esys_crypto.c:341-403 | the exact code; on success the HMAC of pHash newer older decrypt? encrypt? attributes; exact effect on the live contexts, the unfreed one included |
| `EsysCrypto.KDFaHmac` | src/tss2-esys/esys_crypto.c:422-479 | the exact code; on success block Hmac(key, be32(counter) label 0 U V be32(bits)) at the write position and nothing else; with the abort bound the live contexts are as before whichever call fails |
| `EsysCrypto.FillKdfa` | src/tss2-esys/esys_crypto.c:533-544 | all blocks in place with the counter advanced by their number, or the exact number done, the failing block's code and only that block's bytes disturbed; a NULL buffer stops at the first block |
| `EsysCrypto.KDFa` | src/tss2-esys/esys_crypto.c:502-551 | output, write footprint, mask, returned counter, number of blocks done and code, for every bit length, counter and schedule; with the abort bound the live contexts are as before; a NULL output buffer fails at the first block |
| `EsysCrypto.KDFeRound` | src/tss2-esys/esys_crypto.c:600-632 | one block Hash(be32(counter) Z? label 0 U? V?) or the exact code and heap effect; a NULL buffer fails with the context held |
| `EsysCrypto.KDFe` | src/tss2-esys/esys_crypto.c:567-647 | BAD_VALUE without a write for length 0 and the seven that wrap; otherwise exactly ceil(ceil(bits/8)/hlen) blocks, masked, or the exact partial effect; a NULL key fails at the first block |
| `EsysCrypto.XorInto` | src/tss2-esys/esys_crypto.c:697-698 | the in-place loop xors exactly k bytes at the position |
| `EsysCrypto.XorObfuscation` | src/tss2-esys/esys_crypto.c:665-703 | if chunk k fails, the bytes before k*hlen are xored with the keystream prefix, all later bytes are unchanged and the code is KDFa's; otherwise all size bytes are xored; with the abort bound the live contexts are as before |
| `Results.MismatchedSessionAccounts` | src/tss2-esys/esys_crypto.c:366-402 | authHmac leaves the live contexts as before exactly when none is held at the error label, and otherwise exactly that one more |
| `Results.MismatchedDerivationAccounts` | src/tss2-esys/esys_crypto.c:599-646 | KDFe leaves exactly the context of the failed round, if held |
| `Results.LeaksWithoutFaultsIff` | src/tss2-esys/esys_crypto.c:395-402 | without a library failure the mismatched abort leaves a context exactly when start goes through and the table lacks update or finish, or the output buffer is NULL or smaller than the digest |
| `Results.KdfeWithoutFaults` | src/tss2-esys/esys_crypto.c:599-646 | KDFe with a complete table and no library failure succeeds and leaves no context exactly when key is not NULL; with a NULL key it answers BAD_REFERENCE and leaves one context |
| `Results.AuthHmacLeakExample` | src/tss2-esys/esys_crypto.c:341-403 | a call of authHmac into a TPM2B of size 0, no library call failing, answers BAD_SIZE and its context is still live |
| `Results.KdfeLeakExample` | src/tss2-esys/esys_crypto.c:567-647 | a call of KDFe whose first update fails answers GENERAL_FAILURE and its context is still live |
| `Results.KdfeNullKeyExample` | src/tss2-esys/esys_crypto.c:567-647 | a call of KDFe with a NULL key, no library call failing, answers BAD_REFERENCE and its context is still live, in either backend |
| `Results.DerivedKeyValue` | src/tss2-esys/esys_crypto.c:599-641 | a buffer completed by KDFa or KDFe holds the stream prefix modulo 2^bits |
| `Results.DerivedBlocks` | src/tss2-esys/esys_crypto.c:521-546 | byte j*hlen+i of a completed buffer is byte i of the HMAC or hash with counter c0+j+1 over the parts in their order, the very first one modulo 2^(bits mod 8); every byte beyond the blocks is untouched |
| `Results.BlocksBeforeFailure` | src/tss2-esys/esys_crypto.c:533-544 | a derivation that failed has the blocks before the failing one in place, unmasked, and nothing after it touched |
| `Results.DeriveKey` | src/tss2-esys/esys_crypto.c:502-551 | a call of KDFa that succeeds leaves in the first ceil(bits/8) bytes the stream prefix modulo 2^bits, for every bit length up to 2^32-8 |
| `Results.XorRunTwiceRestores` | src/tss2-esys/esys_crypto.c:649-702 | a completed run obfuscates exactly the data, and a second one restores the buffer |
| `Results.ObfuscatedBits` | src/tss2-esys/esys_crypto.c:690-701 | after any number of chunks every bit of byte i in them is the old bit xor the bit of byte i mod h of HMAC(key, be32(i/h+1) "XOR" 0 U V be32(8*size)), and every other byte is the old one |
| `Results.ObfuscateOnce` | src/tss2-esys/esys_crypto.c:665-703 | after a successful call that holds of every bit of the data, and nothing after the data has changed |
| `Results.XorTwiceRestores` | src/tss2-esys/esys_crypto.c:665-703 | two calls with the same arguments restore the array whenever both complete the same number of chunks, in particular when both succeed |
| `Results.DeriveKeystream` | src/tss2-esys/esys_crypto.c:502-551 | one call of KDFa with bit length 8*size and no counter yields exactly the first size bytes of the chunked keystream |
| `Results.XorRunNeverRepeats` | src/tss2-esys/esys_crypto.c:690-701 | over data of every size a run uses the counters 1, 2, ... exactly while it has fewer than 2^32 pieces, that is up to (2^32-1)*hlen bytes, and repeats no HMAC message exactly while it has at most 2^32 |
| `Coordinates.EncodingsAgreeIff` | src/tss2-esys/esys_crypto_mbed.c:650-676 | padded and minimal encoding denote the same number and are the same bytes exactly when the leading byte is non-zero |
| `Coordinates.KdfeInputsAgreeIff` | src/tss2-esys/esys_iutil.c:417-421 | both backends feed KDFe the same bytes exactly when neither Z nor Q.x has a leading zero byte |
| `Coordinates.Bn2BinPad` | src/tss2-esys/esys_crypto_ossl.c:52-59 | the buffer holds the number left-padded with zeros to the given length, and nothing else changed |
| `Coordinates.MbedWriteCoordinate` | src/tss2-esys/esys_crypto_mbed.c:660-667 | the minimal encoding and its size, refused exactly when it exceeds the buffer |
| `Callbacks.SetRc` | src/tss2-esys/esys_crypto.c:739-774 | a set succeeds exactly when every required callback is given, and only then takes the userdata |
| `Callbacks.SetField` | src/tss2-esys/esys_crypto.c:739-774 | every field after a set, failed or not: the user's up to the first missing required one, an absent SM4 entry the build's own or NULL, the old ones after it; init taken over on success |
| `Callbacks.RunKeepsRequired` | src/tss2-esys/esys_context.c:264-275 | in a build with a crypto library no sequence of set calls leaves a required callback NULL |
| `Callbacks.ResetRestores` | src/tss2-esys/esys_crypto.c:715-738 | after any sequence of set calls a NULL table restores what Esys_Initialize built: exactly the build's own function in each field it has, and no userdata |
| `Callbacks.BoundAbortAfterAnyRun` | src/tss2-esys/esys_crypto.c:132-141 | after any such sequence a computation with the matching abort still leaves no context |
| `Callbacks.CryptoBackendTable.SetCallbacks` | src/tss2-esys/esys_crypto.c:713-775 | the table and the code are those of the specification |
| `Callbacks.InitializeCryptoBackend` | src/tss2-esys/esys_crypto.c:777-789 | BAD_REFERENCE for a NULL table; otherwise the code is the setter's, else the init callback's; a failing init does not undo the set |
| `EsysLifecycle.RunKeepsOwnership` | src/tss2-esys/esys_context.c:47-152 | over every run with a failure at any step no pointer dangles, contexts share nothing, each uses its own TCTI, and whatever is allocated belongs to a context or was stranded |
| `EsysLifecycle.RunAccounts` | src/tss2-esys/esys_context.c:47-152 | over every run, of each struct, block and TCTI, allocated and released add up to what there was and what the run created |
| `EsysLifecycle.EveryResourceAccounted` | src/tss2-esys/esys_context.c:47-152 | everything a run creates is one of: owned by exactly one live context, released exactly once, stranded; nothing else is ever released, an application TCTI never |
| `EsysLifecycle.AllReleasedIff` | src/tss2-esys/esys_context.c:115-152 | with no context left, every struct, SYS block and loader TCTI created was released exactly once if and only if none was stranded, and none is without a failing Tss2_Sys_GetTctiContext |
| `EsysLifecycle.AllReleased` | src/tss2-esys/esys_context.c:131-152 | with the SYS layer as written, once no context is left nothing is allocated and the releases are exactly what was created, each once |
| `EsysLifecycle.SysFailureStrandsTcti` | src/tss2-esys/esys_context.c:131-147 | a failing Tss2_Sys_GetTctiContext strands something exactly when the TCTI was the loader's |
| `EsysLifecycle.InitializeOutcome` | src/tss2-esys/esys_context.c:54-105 | the code of each failing step, a lower layer's handed up unaltered; the pointer leads to a new context holding the argument exactly on success and is NULL otherwise, with contexts and allocations unchanged |
| `EsysLifecycle.FinalizeOutcome` | src/tss2-esys/esys_context.c:149-151 | the pointer is NULL and its context gone; every other pointer and context is as before |
| `EsysLifecycle.GetTctiIsStable` | src/tss2-esys/esys_context.c:165-171 | the answer of Esys_GetTcti does not change for as long as the context lives |
| `EsysLifecycle.GetTctiAnswersArgument` | src/tss2-esys/esys_context.c:62-63 | after a successful Esys_Initialize and any run, Esys_GetTcti answers with exactly that call's tcti argument, NULL when it was NULL |
| `EsysLifecycle.Esapi.Initialize` | src/tss2-esys/esys_context.c:47-106 | on success the struct, SYS block and loader TCTI taken stay allocated; on a failure at any step exactly what was taken is released, once, and the pointer is NULL |
| `EsysLifecycle.Esapi.Finalize` | src/tss2-esys/esys_context.c:115-152 | the context's struct, SYS block and loader TCTI are each released once, an application TCTI is not, and the pointer is NULL |
| `EsysLifecycle.Esapi.GetTcti` | src/tss2-esys/esys_context.c:165-171 | BAD_REFERENCE on NULL, otherwise the application's argument |

## Left out

- The digest, HMAC, AES, SM4, RSA, random and curve arithmetic of OpenSSL and mbedTLS: foreign code, kept as arbitrary functions or failures.
- `iesys_cryptossl_pk_encrypt` and the ECDH functions beyond the bytes of Q and Z: they build library keys and curve points, call RSA or curve arithmetic once and free what they built.
- User-registered callbacks as code: the table is modelled, their behaviour is not, and the context theorems are about the built-in backends.
- Aliasing of inputs with outputs: keys, nonces, labels and names are values, so a call whose output buffer overlaps an input is not modelled.
- The size that OpenSSL's `EVP_DigestSignFinal` leaves in `*size` when it fails: decided by the library.
- The ESYS_STATE machine, session handling and the cp/rp hash wrappers in `esys_iutil.c` and `esys_cp_rp_hash.c`: callers of this layer.
- The ESYS resource list freed by Esys_Finalize, Esys_GetPollHandles, Esys_SetTimeout and the handle counter: no property of the modelled layer depends on them.
- OpenSSL before 3.0: its branches differ in which library calls are made, not in the lifecycle.
- Logging.
