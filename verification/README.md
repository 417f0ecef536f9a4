# SYJ EdgeMind: a verified model

SYJ EdgeMind wraps llama.cpp with its own model verification, usage quota, memory admission, model registry and
local dashboard. This project models those parts in Dafny 4.11 and proves what they promise, for every input, every
run and every interleaving. `dafny verify dfyconfig.toml` checks all of it.

A string is a sequence of characters that stand for bytes. Objects the program updates in place are classes whose
methods are proved equal to specification functions; the properties are proved about those functions. The clock, the
outcome of every system call, llama.cpp, the tokenizer, the sampler and the caller's callback are parameters, so each
statement holds whatever they answer.

| files | what they model |
|---|---|
| `Sha256Spec`, `Sha256Constants`, `Sha256`, `Sha256Theorems` | FIPS 180-4 SHA-256, the streaming hasher over arrays that equals it for every chunking, and the chunked file hash |
| `Sha256Bits`, `Sha256Example`, `DigestText` | what the standard's functions compute, a known answer, and the digest read back by position |
| `GgufFormat`, `GgufParse`, `GgufMetadata`, `GgufReader`, `GgufTheorems` | the GGUF metadata section as an encoder, the cursor-based bounded reader, and the proof that it accepts exactly the encodings |
| `GgufReports` | the format byte by byte, and what is reported of an accepted or a malformed file |
| `ModelVerifier` | the verdict on a model file: structure, hash, checksum |
| `TextCodec`, `FileSystem` | lines, decimal numbers and percent-encoding; a disk with every state a crash can leave |
| `Registry`, `RegistryStore` | the registry file, import as an upsert that refines a finite map, resolution of ids |
| `UsageTypes`, `UsageStore`, `UsageManager`, `Quota` | usage accounting, its file, and quotas over whole runs |
| `Memory`, `Inference`, `Runtime` | memory admission, the handle lifecycle and token loop, and the gate pipeline that joins all of the above |
| `Overlap` | what a load leaves when the registry file and the usage file share a name, or one is the other's temporary file |
| `Runs` | whole runs of the real pipeline, with any configurations, as runs of the quota machine |
| `Json`, `Reload`, `Listing` | the dashboard's JSON codec, the reload round trip, and the model listing read back from text |
| `PageRequest`, `ListingJson` | the load request the page sends, as the server parses it, and the listing's JSON as an independent reader reads it |
| `Dashboard`, `Interleaving` | the runtime controller, and its handlers running concurrently under one mutex |

Main results, hardest first:

- **Hashing.** However a message is cut into chunks, construct, update and finalize give the FIPS 180-4 digest
  (`HashChunks`). The round constants and the initial hash value are the cube and square root bits the standard
  names (`RoundConstantsAreCubeRoots`, `InitialWordsAreSquareRoots`), the padding is the standard's and injective, and
  the digest of "abc" is the published one (`DigestOfAbc`). A model file is Verified if and only if its structure is
  valid and the configured checksum, in either case, reads as its hash value (`Verify`).
- **GGUF.** A file is accepted if and only if it begins with the encoding of a header and key-value list within the
  limits (`AcceptedExactly`); what is reported of it is the last value of each key, with the context length found under
  the architecture (`MetadataOfEncoded`), whatever the order of its keys and whatever follows; every proper prefix is rejected; and the work is bounded by the file's size (`Validate`).
- **Generation and memory.** A generation streams exactly the tokens before the first step that does not go on
  (`GenerateExactly`), and a load is admitted to memory exactly when its parts fit the budget in plain arithmetic
  (`MemorySafeExactly`); every error of a load has its exact cause (`GateErrorsExactly`).
- **Concurrency.** Every interleaving of dashboard handlers equals serving whole requests one after the other in the
  order they got the mutex (`EveryInterleavingIsSerial`); at every moment at most one runtime handle is live, none is
  destroyed twice and none while a stream uses it (`HandlesAreSafe`); when all are done a handle is live if and only if
  a request that was served left it behind (`LiveWhenDone`). The health report, which takes no mutex, disagrees with the
  serial order exactly while one runtime is replaced by another (`HealthExactly`).
- **Quota.** A run of the real pipeline of loads, generations, unloads and restarts (`Drive`) follows a small quota
  machine if and only if no load of it writes its registry over the usage file (`FollowsExactly`), and the machine's
  persisted counters never exceed the limits (`QuotaIsNeverExceeded`, `AtMostLimitPerPeriod`). Without
  any assumption on saves and clocks, a run stays within the limits if and only if no event of it overshoots, and those
  events are named exactly (`MessagesWithinExactly`, `TokensWithinExactly`).
- **Shared files.** For every configuration, a load leaves the usage state it should if and only if it does not write
  its registry over the usage file, which takes a shared name and particular saves to fail or succeed
  (`UsageKeptExactly`); it finds the registry as stored if and only if the usage saves left it so
  (`RegistryFoundExactly`), and what it leaves of it is stated for all paths (`RegistryAfterLoad`).
- **Registry, usage file.** What is saved is loaded back, whatever bytes the text fields hold; a crash at any step
  leaves the old or the new contents; imports refine a finite map.
- **Dashboard text.** A reload asks for exactly the configuration in force if and only if the stored selection holds
  no control character without a short escape and fits the request limit; the page's load request is parsed to what it
  says, with one exact exception (`PageRequestIsParsed`); the listing is read back if and only if every record is one
  the line format can carry, and its JSON has every entry's fields (`ModelsPage`).

Where the code departs from its documentation, or from what a reader would expect, the model follows the code:

- `src/model/model_registry.h:34` says a corrupted registry yields no entries; `load` leaves those parsed before the
  error in its out-parameter (`src/model/model_registry.cpp:180-187`). A load leaves nothing exactly when the magic line
  is missing or the first block yields no entry (`NothingLeftExactly`); `CorruptedKeepsEntries` is a witness.
- `src/memory/memory_estimator.cpp:53-54` calls the truncation of the grouped-query width a few bytes per layer;
  the loss grows with the context size (`Memory.GqaLossExactly`) and can exceed 32000 bytes in one layer
  (`Memory.GqaLossExample`).
- `docs/usage-model.md:95` calls session time a matter of one process lifetime; the start is persisted, and since a
  load checks admission before it starts a session, an expired session stays denied (`ExpiredSessionsStayExpired`).
- `src/dashboard/dashboard.cpp:45-47` prints escapes that `src/dashboard/dashboard.cpp:85` refuses, so a selection
  that was accepted can fail to reload (`AcceptedButNotReloadable`).
- `src/dashboard/dashboard.cpp:92-97` looks for a quoted key anywhere in the body, so in the request of the page
  (`src/dashboard/dashboard_static.h:30`) a model named threads is found in the place of the key, and the context size is
  taken for the thread count (`PageRequestIsParsed`, `MisreadExample`).
- The configuration check (`src/core/config.cpp:84-90`) lets the registry and usage files overlap, in three ways. With
  equal paths a usage file, once there, makes the registry unreadable to every load (`EqualPathsRecordNothing`); only one
  that finds no usage file and completes no usage save writes its registry there, and then nothing is admitted any more
  (`EqualPaths`, `OverwrittenExample`). With the usage file as the registry's temporary file, every load that records its
  model removes the counters and the session start, and the limits start anew (`UsageIsTemp`, `ErasedExample`). With the
  registry as the usage file's temporary file, a load whose admission check or session save opens that file, admitted or
  denied, leaves no registry or an unreadable one in its place before it looks a model up, and one that then records its
  model loses every other entry (`RegistryIsTemp`, `RegistryGoneExample`); a generation's saves do the same
  (`RegistryAfterGeneration`).
- `src/dashboard/dashboard.cpp:454-456` reads the runtime pointer without the mutex its other readers take, so the
  health report can answer "not loaded" in the middle of a reload (`HealthGap`).

## Model

| member | source | states |
|---|---|---|
| Sha256Constants.RoundConstantsAreCubeRoots | src/model/model_hash.cpp:12-23 | each of the 64 constants is the first 32 bits of the fractional part of the cube root of its prime |
| Sha256Constants.InitialWordsAreSquareRoots | src/model/model_hash.cpp:29-39 | the eight initial words are the square root bits of the first eight primes |
| Sha256.Hasher.constructor | src/model/model_hash.cpp:29-41 | a new hasher has absorbed the empty message |
| Sha256.Hasher.ExpandSchedule | src/model/model_hash.cpp:44-53 | the schedule filled in place is the recursive schedule of section 6.2.2 of FIPS 180-4 |
| Sha256.Hasher.RunRounds | src/model/model_hash.cpp:55-68 | rotating eight variables 64 times is the recursive sequence of rounds |
| Sha256.Hasher.ProcessBlock | src/model/model_hash.cpp:43-72 | the state becomes the compression of the old state with the block |
| Sha256.Hasher.FillBuffer | src/model/model_hash.cpp:77-88 | a partly filled buffer is topped up, and compressed when that completes a block |
| Sha256.Hasher.AbsorbRest | src/model/model_hash.cpp:90-99 | the other complete blocks are compressed and the rest buffered |
| Sha256.Hasher.Update | src/model/model_hash.cpp:74-100 | between calls the state is the compression of all complete blocks and the buffer holds exactly the rest, fewer than 64 bytes; the counter is the bit length modulo 2^64 |
| Sha256.Hasher.AbsorbPadding | src/model/model_hash.cpp:102-118 | the zero-padding loop ends, with the least number of zero bytes, and the bit counter is what it was |
| Sha256.Hasher.LengthBytes | src/model/model_hash.cpp:120-123 | the shifted bytes are the big-endian length field |
| Sha256.Hasher.RenderHex | src/model/model_hash.cpp:132-142 | the characters written at computed places are the lower-case digest, and read as the eight words of the state |
| Sha256.Hasher.FinalizeHex | src/model/model_hash.cpp:102-143 | the result is the lower-case digest of everything absorbed, and reads as its hash value |
| Sha256Theorems.PaddingIsTheStandards | src/model/model_hash.cpp:103-130 | below 2^61 bytes the padding is 0x80, the fewest zeros and the exact bit length, in one or two blocks |
| Sha256Theorems.PaddingIsInjective | src/model/model_hash.cpp:103-130 | two messages with the same padded form are the same |
| Sha256Theorems.HexDigestIsInjective | src/model/model_hash.cpp:132-142 | equal printed digests mean equal hash values |
| Sha256Theorems.HashChunks | src/model/model_hash.cpp:29-143 | any way of cutting a message into chunks yields its digest, in lower case, which reads as its hash value |
| Sha256Theorems.ComputeModelIdentity | src/model/model_hash.cpp:145-174 | the bounded chunk loop hashes the whole file, with an identity that reads as its hash value, or reports nothing after a failed open or read |
| DigestText.DigestRead | src/model/model_hash.cpp:132-142 | a printed digest is lower-case digits, and reads by position, most significant digit first, as the eight words |
| DigestText.ReadsAsExactly | src/model/model_verifier.cpp:17-20 | a text, put in lower case, is the printed digest if and only if the text, in either case, reads as the hash value |
| Sha256Bits.ChChooses | src/model/model_hash.cpp:60 | Ch takes one word's bits where the selecting word has ones and the other's where it has zeros |
| Sha256Bits.MajWhereFirstTwoAgree | src/model/model_hash.cpp:63 | wherever the first two of the three words agree, Maj is what they agree on |
| Sha256Bits.MajWhereOuterTwoAgree | src/model/model_hash.cpp:63 | the same for the first and the third |
| Sha256Bits.MajWhereLastTwoAgree | src/model/model_hash.cpp:63 | the same for the second and the third |
| Sha256Bits.SigmasOfOneBit | src/model/model_hash.cpp:50-62 | the bits that one bit becomes under each of the four sigma functions |
| Sha256Example.DigestOfAbc | tests/model/test_model_hash.cpp:39 | the digest of "abc" is the published one, by every schedule word and every round |
| GgufReader.BoundedReader.ReadBytes | src/model/gguf_reader.cpp:69-75 | reads exactly the next n bytes, or fails with the cursor at end of file |
| GgufReader.BoundedReader.ReadNumber | src/model/gguf_reader.cpp:77-114 | the bytes read are the little-endian number |
| GgufReader.BoundedReader.Skip | src/model/gguf_reader.cpp:116-129 | moves only within the file |
| GgufReader.BoundedReader.ReadStringBounded | src/model/gguf_reader.cpp:131-144 | succeeds exactly when the length is allowed and the bytes are there |
| GgufReader.BoundedReader.ConsumeStringValue | src/model/gguf_reader.cpp:156-164 | captured or skipped, a string is accepted and passed over alike |
| GgufReader.BoundedReader.ConsumeScalarValue | src/model/gguf_reader.cpp:170-220 | accepts exactly the payloads of the type, and captures the number or text asked for |
| GgufReader.BoundedReader.ConsumeStringArray | src/model/gguf_reader.cpp:246-255 | passes over exactly the encoded elements, at least eight bytes each |
| GgufReader.BoundedReader.ConsumeValue | src/model/gguf_reader.cpp:227-264 | accepts exactly the values without nested arrays and within the ceilings |
| GgufReader.ConsumeEntry | src/model/gguf_reader.cpp:344-395 | one entry moves the cursor by its encoding and updates the facts with its key, type and value |
| GgufReader.ConsumeEntries | src/model/gguf_reader.cpp:335-395 | the loop stops at the first malformed entry with the facts of those before it |
| GgufReader.Validate | src/model/gguf_reader.cpp:268-414 | the verdict and metadata of the bytes, whose fields `GgufReports` states; the iterations completed, accepted or not, are exactly those of the entries and string elements that can be read, and number at most (size - 24) / 8 |
| GgufReader.WorkIsIterations | src/model/gguf_reader.cpp:344-395 | the work is one iteration for each entry read and each string element in one, plus the elements read of the entry that fails |
| GgufMetadata.NoteEffect | src/model/gguf_reader.cpp:361-394 | the branches on the key never shadow one another |
| GgufMetadata.FactsAreLastMatches | src/model/gguf_reader.cpp:335-411 | every extracted field is the value of the last entry with its key and an allowed type |
| GgufParse.KVsSound | src/model/gguf_reader.cpp:344-395 | what is read is a well-formed list whose encoding stands at the cursor |
| GgufParse.KVsComplete | src/model/gguf_reader.cpp:344-395 | an encoded well-formed list is read back |
| GgufTheorems.EncodedFilesAreAccepted | src/model/gguf_reader.cpp:268-414 | a file that begins with a well-formed encoding is Valid, with that list's report (see `GgufReports.MetadataOfEncoded` for its fields) |
| GgufTheorems.AcceptedFilesAreEncoded | src/model/gguf_reader.cpp:268-414 | a Valid file begins with a well-formed encoding, and the report is that list's |
| GgufTheorems.AcceptedExactly | src/model/gguf_reader.cpp:268-414 | Valid if and only if the file begins with such an encoding |
| GgufTheorems.EncodingIsUnambiguous | src/model/gguf_reader.cpp:268-414 | no file begins with two different encodings |
| GgufTheorems.TrailingBytesAreIgnored | src/model/gguf_reader.cpp:335-414 | an accepted file stays accepted with the same metadata whatever follows |
| GgufTheorems.TruncatedFilesAreRejected | src/model/gguf_reader.cpp:344-395 | every proper prefix of an encoding is rejected |
| GgufTheorems.ReportIgnoresOrder | src/model/gguf_reader.cpp:335-411 | permuting entries with distinct keys changes nothing, so the context length is found on either side of the architecture |
| GgufReports.HeaderLayout | src/model/gguf_reader.cpp:296-324 | an encoded header is the magic, then the version, the tensor count and the entry count as little-endian numbers, byte by byte |
| GgufReports.EntryLayout | src/model/gguf_reader.cpp:344-360 | an encoded entry is its key's length, its key, the code of its type and its payload |
| GgufReports.PayloadLayout | src/model/gguf_reader.cpp:156-264 | a payload is the scalar's bytes, a counted string, or an element type, a count and the elements |
| GgufReports.EntriesInOrder | src/model/gguf_reader.cpp:344-395 | entries stand one after the other |
| GgufReports.HeaderNumbers | src/model/gguf_reader.cpp:304-331 | the numbers read from a header are those of its bytes, least significant first |
| GgufReports.ScalarNumber | src/model/gguf_reader.cpp:170-220 | a captured number is that of the scalar's four or eight bytes |
| GgufReports.Limits | src/model/model_types.h:43-68 | how wide a scalar is, and how long a key, a string and an array may be |
| GgufReports.MetadataOfEncoded | src/model/gguf_reader.cpp:331-411 | the metadata of a file that begins with an encoding: its header's numbers, each field the value of the last entry with its key and an allowed type, and the context length looked up under the architecture, if that is not empty |
| GgufReports.MetadataOfMalformed | src/model/gguf_reader.cpp:326-389 | a malformed file leaves its header's numbers and the texts of the entries before the first malformed one, and with too large a count nothing |
| GgufReports.VerdictCauses | src/model/gguf_reader.cpp:268-414 | each status in the bytes of the file: empty, shorter than 24 bytes, magic, version, and then Valid if and only if it begins with an encoding |
| ModelVerifier.Verify | src/model/model_verifier.cpp:64-144 | Verified exactly when the structure is valid, the file can be hashed and the checksum, if any, reads in either case as its hash value; every other status with its cause |
| ModelVerifier.StatusNumbers | src/model/model_verifier.cpp:22-144 | the stored number of the status, in the terms of the file and the expected checksum |
| TextCodec.LinesOfUnlines | src/usage/usage_state_store.cpp:57-68 | reading lines undoes writing them |
| TextCodec.LinesOfUnterminated | src/usage/usage_state_store.cpp:57-68 | a last line without a newline is a line too |
| TextCodec.SplitFieldOfJoin | src/usage/usage_state_store.cpp:63-67 | splitting at the first equals sign undoes joining a key and any value |
| TextCodec.NoFieldExactly | src/usage/usage_state_store.cpp:63-66 | a line has no key exactly when it has no equals sign or begins with one |
| TextCodec.ParseOfPrintInt | src/usage/usage_state_store.cpp:22-34 | every printed number is read back if it is a signed 64-bit one, and refused, not clamped, otherwise |
| TextCodec.ParseOfPrintNat | src/model/model_registry.cpp:71-79 | every printed number is read back if it is an unsigned 64-bit one, and refused otherwise; with a minus sign its negation modulo 2^64 is read |
| TextCodec.PrintedExamples | src/usage/usage_state_store.cpp:135-140 | numbers are printed with the most significant digit first |
| TextCodec.ParseAround | src/usage/usage_state_store.cpp:22-34 | white space and a sign may stand before the digits, and nothing behind them |
| TextCodec.PercentEncode | src/model/model_registry.cpp:31-46 | the loop computes the encoding |
| TextCodec.PercentDecode | src/model/model_registry.cpp:48-69 | the loop computes the decoding, and fails exactly on a percent sign without two hexadecimal digits |
| TextCodec.DecodedOfEncoded | src/model/model_registry.cpp:31-69 | decoding undoes encoding for every byte string |
| TextCodec.EncodedIsPlain | src/model/model_registry.cpp:31-46 | encoded text holds no equals sign and no line break |
| TextCodec.EncodedExactly | src/model/model_registry.cpp:31-46 | the escapes of the four special characters, and text without them unchanged |
| TextCodec.EscapeIsDecoded | src/model/model_registry.cpp:48-69 | an escape of any byte, with digits of either case, is decoded |
| FileSystem.Disk.Replace | src/usage/usage_state_store.cpp:128-184 | write a temporary file and rename: the files afterwards for every failure; at every step the target holds its old contents or all of the new, and a writer that gives up never changes it |
| Registry.LoadOfRegistryText | src/model/model_registry.cpp:114-220 | loading what was printed gives Ok and the same entries in order, for any bytes in the text fields |
| Registry.RegistryTextLines | src/model/model_registry.cpp:114-128 | the twelve lines of a registry with one entry, key by key |
| Registry.EntryExactly | src/model/model_registry.cpp:133-157 | a block yields an entry if and only if it has all ten fields, each well-formed and in range, and an id |
| Registry.LoadedEntriesAreStorable | src/model/model_registry.cpp:130-157 | whatever a file holds, every entry loaded has an id and fields in range |
| Registry.NothingLeftExactly | src/model/model_registry.cpp:161-205 | for every file, corrupt or not, a load leaves nothing in the list if and only if the magic line is missing or the first block yields no entry |
| Registry.CorruptedKeepsEntries | src/model/model_registry.cpp:161-205 | a registry followed by a line without a key is Corrupted, with all its entries left in the result |
| RegistryStore.Load | src/model/model_registry.cpp:161-205 | the line loop computes the specified result |
| RegistryStore.Save | src/model/model_registry.cpp:207-258 | succeeds exactly when every entry has an id and the system calls work; a load then gives the list back, otherwise the old contents; a save that an unnamed entry aborts never changes the registry, at any step |
| RegistryStore.CrashedSavesLoadOldOrNew | src/model/model_registry.cpp:207-258 | after a crash at any step a load sees the old registry or the new one |
| RegistryStore.UpsertEntry | src/model/model_registry.cpp:312-323 | overwrites the entry with the same id or appends, and reports which |
| RegistryStore.ImportModel | src/model/model_registry.cpp:260-331 | a file with an identity is recorded under its hash unless the registry is corrupt or the save fails; other files leave the registry alone |
| RegistryStore.ImportedEntryRecords | src/model/model_registry.cpp:284-310 | every field of the entry recorded of a file that begins with an encoding, from its last entries with the keys, its hash value, its verdict, size, time and path |
| RegistryStore.ImportIsFound | src/model/model_registry.cpp:260-331 | after an import whose save works, looking the identity up finds that entry |
| RegistryStore.ImportsRefineMap | src/model/model_registry.cpp:312-323 | after any imports the ids are distinct and in first-import order, and each looks up its most recent import |
| RegistryStore.ResolveModelPath | src/model/model_resolver.cpp:9-65 | a path resolves to itself, an id to its entry's path; the four failures each with its cause |
| RegistryStore.RunImports | src/model/model_registry.cpp:260-331 | from an absent registry, resolving a hash gives the path of the last file imported with that content, or not found |
| UsageTypes.Evaluate | src/usage/usage_accounting.cpp:36-78 | allowed exactly when no enabled limit is exhausted; otherwise the first exhausted one, time before messages before tokens |
| UsageTypes.RemainingAmountsAreExact | src/usage/usage_accounting.cpp:8-78 | the remaining seconds, messages and tokens and the reset time of a decision say exactly when each limit is hit and the period rolls over |
| UsageManager.CountersAreSaturatedTotals | src/usage/usage_manager.cpp:77-106 | over any calls whose clock stays in the period, the persisted counters are min(10^15, start + what the calls with a completed save and a non-negative amount add), and every state persisted is valid |
| UsageManager.RolloverStartsAfresh | src/usage/usage_accounting.cpp:8-34 | a check at which a rollover is due never finds messages or tokens exhausted, reports all of both remaining, and persists empty counters, the new start and the same session |
| UsageManager.NoRolloverKeepsCounters | src/usage/usage_manager.cpp:39-64 | a check at which none is due writes nothing, and admits exactly when no enabled limit is reached |
| UsageManager.RecordedExactly | src/usage/usage_manager.cpp:77-106 | a recorded generation leaves one message and its tokens on top of the period's, or alone in a new period |
| UsageStore.LoadOfStateText | src/usage/usage_state_store.cpp:37-145 | a valid state is reloaded unchanged |
| UsageStore.StateTextLines | src/usage/usage_state_store.cpp:135-140 | the six lines of a state file, key by key |
| UsageStore.StateExactly | src/usage/usage_state_store.cpp:70-121 | fields make a state if and only if all five are there as numbers and in range |
| UsageStore.LoadedStatesAreValid | src/usage/usage_state_store.cpp:37-121 | whatever a file holds, the state handed out is valid |
| UsageStore.Load | src/usage/usage_state_store.cpp:37-102 | the line loop computes the specified result |
| UsageStore.Save | src/usage/usage_state_store.cpp:123-185 | a valid state is stored so that a load gives it back; any other is refused with the disk untouched |
| UsageStore.CrashedSavesLoadOldOrNew | src/usage/usage_state_store.cpp:123-185 | after a crash at any step a load sees the old state or the new one |
| UsageManager.Manager.CheckAdmission | src/usage/usage_manager.cpp:39-64 | decides on the state of the current period, persists only a rollover, and denies on a corrupt file; `RolloverStartsAfresh` and `NoRolloverKeepsCounters` say what that amounts to |
| UsageManager.Manager.SessionStart | src/usage/usage_manager.cpp:66-75 | sets the session start and nothing else, unless the file is corrupt or the save fails |
| UsageManager.Manager.RecordGeneration | src/usage/usage_manager.cpp:77-106 | counts one message and its tokens against the current period, saturating; `RecordedExactly` states the new counters |
| Quota.LoadStartsSession | src/core/runtime.cpp:56-69 | a load starts a session exactly when its configuration is valid, the check admits it and the save works, and touches no counter but by the check's rollover |
| Quota.GenerationIsCounted | src/core/runtime.cpp:176-224 | an admitted generation whose save works counts as one message and its tokens, on top of what the check left or alone in a new period; any other leaves the counters as the check left them |
| Quota.QuotaIsNeverExceeded | src/core/runtime.cpp:176-224 | over every ordinary run the counters stay within the limits, or where they started; tokens overshoot by at most the last generation |
| Quota.AtMostLimitPerPeriod | src/usage/usage_manager.cpp:39-106 | starting fresh, the persisted counters are min(10^15, generations recorded since the last rollover) and min(10^15, their tokens); at most as many generations as the limit are recorded between consecutive rollovers, and tokens pass their limit only by the last |
| Quota.OvershootExactly | src/usage/usage_manager.cpp:39-106 | an event passes the message limit if and only if it is a generation admitted on a rollover that could not be saved, recorded by a clock reading that no longer shows it, with the limit already reached |
| Quota.TokensOvershootExactly | src/usage/usage_manager.cpp:39-106 | and the token bound if and only if such a generation finds too few tokens left |
| Quota.MessagesWithinExactly | src/core/runtime.cpp:176-224 | whatever the clock reads and whichever saves fail, a run that starts within the message limit stays within it if and only if no event of it overshoots |
| Quota.TokensWithinExactly | src/core/runtime.cpp:176-224 | the same for the token bound |
| Quota.OvershootExample | src/usage/usage_manager.cpp:39-106 | one generation passes both bounds, of enabled limits, with a clock that only goes forward |
| Quota.ExpiredSessionsStayExpired | src/core/runtime.cpp:58-69 | with a clock that does not go back, an expired session denies every later load and generation |
| Quota.ReadyExactly | src/core/runtime.cpp:40-174 | a model is ready exactly when the latest load passed every gate and only generations followed |
| Memory.CheckedMul | src/memory/memory_estimator.cpp:13-23 | succeeds exactly when the product fits 64 bits |
| Memory.KvCacheBound | src/memory/memory_estimator.cpp:36-76 | for in-range inputs the key-value estimate is at most 2^59 and no step of its product overflows |
| Memory.ComputeBound | src/memory/memory_estimator.cpp:78-101 | for in-range inputs the compute estimate is at most 2^48 |
| Memory.EstimateKvCacheBytes | src/memory/memory_estimator.cpp:36-76 | the checked product is the unbounded formula, refused only for inputs out of range |
| Memory.EstimateComputeBufferBytes | src/memory/memory_estimator.cpp:78-101 | the checked product is the unbounded formula, refused only for inputs out of range |
| Memory.GqaLossExactly | src/memory/memory_estimator.cpp:48-62 | truncation loses exactly the division's remainder for each layer, position and byte of width, twice; nothing if and only if the head count divides the product |
| Memory.GqaTruncationLoss | src/memory/memory_estimator.cpp:48-62 | so less than two elements for each layer and context position |
| Memory.GqaLossExample | src/memory/memory_estimator.cpp:52-54 | one layer can lose more than 32000 bytes |
| Memory.Estimate.TotalBytes | src/memory/memory_types.h:72-83 | the sum with wrap-around detection is the exact sum, or the maximum when that does not fit |
| Memory.Evaluate | src/memory/memory_budget.cpp:14-37 | for configurable budgets, safe exactly when the estimate is valid, the reserve is below the budget and the unbounded sum plus reserve fits |
| Memory.DecidesSafelyExactly | src/memory/memory_budget.cpp:14-37 | the decision is the unbounded one except for a valid estimate beyond 64 bits with the maximal budget and no reserve |
| Memory.SaturatedSumAccepted | src/memory/memory_budget.cpp:14-37 | with the maximal budget and no reserve the code accepts an estimate whose sum does not fit |
| Memory.SmallerContextsStaySafe | src/inference/inference_engine.cpp:107-141 | what is safe at one context size is safe at every smaller positive one |
| Inference.MemorySafeExactly | src/inference/inference_engine.cpp:107-145 | in plain arithmetic: a load passes the memory gate if and only if its inputs are in range and weights, keys and values, compute buffer, 180 MiB and the reserve fit the budget |
| Inference.LoadOutcomeExactly | src/inference/inference_engine.cpp:70-173 | the cause of each error of a load |
| Inference.SmallerContextsFit | src/inference/inference_engine.cpp:107-145 | what fits at one context size fits at every smaller positive one |
| Inference.ContextManager.Consume | src/context/context_manager.cpp:16-24 | use grows by the count when it is positive and fits, otherwise not at all |
| Inference.GenerateBounds | src/inference/inference_engine.cpp:199-282 | at most max_tokens callbacks, at most one more than decoded tokens, and never more positions than the context has |
| Inference.GenerateExactly | src/inference/inference_engine.cpp:245-281 | a generation that starts decodes the tokens of the steps before the first that does not go on, or max_tokens; that step's token is handed out unless it ends the generation; the error is its failing decode |
| Inference.EveryTokenIsStreamed | src/inference/inference_engine.cpp:254-281 | when every step goes on, max_tokens tokens are handed out and decoded |
| Inference.GenerateRefused | src/inference/inference_engine.cpp:199-252 | a generation that does not start hands out nothing, and the cause of each of its answers |
| Inference.Engine.Load | src/inference/inference_engine.cpp:70-173 | the first failing gate decides, the memory gate in plain arithmetic; every failure leaves nothing live, and the handles created show that a context comes only after a safe decision |
| Inference.Engine.Unload | src/inference/inference_engine.cpp:49-68 | frees the context before its model, each once |
| Inference.Engine.Generate | src/inference/inference_engine.cpp:199-282 | answers as `GenerateExactly` and `GenerateRefused` state; context use grows by prompt plus decoded tokens once the prompt decodes, otherwise not at all |
| Inference.Engine.StreamTokens | src/inference/inference_engine.cpp:254-281 | the loop samples, stops, hands out and decodes in the specified order |
| Inference.Lifetime | src/inference/inference_engine.cpp:37-185 | over every run of commands and failures, at every moment the live handles are the non-null fields and use is within the context; each command moves the engine as specified, and nothing survives destruction |
| Runtime.Runtime.PassQuota | src/core/runtime.cpp:56-69 | admission is checked before the session starts, with the files each step leaves |
| Runtime.Runtime.PassVerification | src/core/runtime.cpp:78-130 | resolution then verification decide, and a verified model is recorded with its hash and path |
| Runtime.Runtime.Load | src/core/runtime.cpp:40-157 | for any paths: the first gate that refuses names the error, ready exactly when none does, and the files afterwards |
| Runtime.QuotaGateFiles | src/core/runtime.cpp:56-69 | the quota gate leaves the usage state the quota machine prescribes and touches no other file but its temporary one |
| Runtime.ApartFiles | src/core/runtime.cpp:40-157 | with the two files apart, a load finds the registry as it was and leaves the usage state the quota machine prescribes |
| Runtime.PassedGatesMeanVerified | src/core/runtime.cpp:40-157 | a load that passes has a resolved regular file beginning with a well-formed encoding, whose hash value the configured checksum reads as, fits the budget in the configuration's own numbers, and is admitted |
| Runtime.GateErrorsExactly | src/core/runtime.cpp:40-157 | the cause of each error of a load, in the order of the gates |
| Runtime.LimitsExactly | src/core/config.cpp:20-83 | what each number of a configuration may be, the others being valid |
| Runtime.Runtime.Generate | src/core/runtime.cpp:176-224 | admits, streams, then records the number of callbacks made, errors included; the usage state and all files afterwards |
| Overlap.SharedFileIsCorrupted | src/usage/usage_state_store.cpp:47-55 | a usage file that holds a registry, or any part of one, is corrupt and denies every admission |
| Overlap.UsageKeptExactly | src/core/runtime.cpp:40-157 | for every configuration and any files, a load leaves the usage state the quota machine prescribes if and only if it neither overwrites nor erases it with a registry |
| Overlap.EqualPaths | src/core/runtime.cpp:40-157 | equal paths: the usage state is as it should be, or corrupt when the usage file was missing, no usage save completed and the registry's did |
| Overlap.EqualPathsRecordNothing | src/core/runtime.cpp:78-124 | equal paths, with a usage file there: the registry is unreadable, no id resolves and nothing is recorded |
| Overlap.UsageIsTemp | src/model/model_registry.cpp:207-258 | the usage file is the registry's temporary file: missing after a completed registry write, corrupt after a failed one, as it should be otherwise |
| Overlap.RegistryFound | src/core/runtime.cpp:56-79 | for every configuration, admitted or denied: the registry a load finds, after each of the quota gate's saves |
| Overlap.RegistryFoundExactly | src/core/runtime.cpp:56-79 | for every configuration: it is the registry as stored if and only if the saves left it so |
| Overlap.RegistryAfterLoad | src/core/runtime.cpp:40-157 | for every configuration: the registry after the whole load, with the model recorded exactly when the load reaches its import and the save completes |
| Overlap.RegistryIsTemp | src/usage/usage_state_store.cpp:128-184 | the registry is the usage file's temporary file: gone or unreadable after the last save that opened it, denied loads included, and with no other entry left if the load then records its model |
| Overlap.RegistryAfterGeneration | src/core/runtime.cpp:176-224 | what a generation's two saves leave of the registry, for every configuration |
| Overlap.OverwrittenExample | src/core/config.cpp:84-90 | a valid configuration with equal paths whose load leaves a corrupt usage file and denies everything after |
| Overlap.ErasedExample | src/core/config.cpp:84-90 | a valid configuration whose load, with every save working, forgets seven counted messages |
| Overlap.RegistryGoneExample | src/core/config.cpp:84-90 | a valid configuration whose load by id removes the registry that holds the id, and fails |
| Runs.FollowsExactly | src/core/runtime.cpp:40-224 | for loads that share policy and usage file, wherever their registries are, the usage file follows the quota machine throughout the run if and only if no load overwrites or erases it |
| Runs.ElsewhereIsUndisturbed | src/core/runtime.cpp:40-224 | no load does when the usage file is neither the registry nor its temporary file |
| Runs.LimitsHold | src/core/runtime.cpp:40-224 | an ordinary undisturbed run keeps the limits and is ready exactly when the last load passed |
| Runs.Drive | src/core/runtime.cpp:40-224 | any commands, with any configurations, drive real runtimes and their disk through the run as specified, so the limits hold of them |
| Json.JsonEscape | src/dashboard/dashboard.cpp:33-54 | the loop computes the escaped text |
| Json.DenotedOfEscaped | src/dashboard/dashboard.cpp:33-54 | by section 7 of RFC 8259 the escaped text denotes the input, for every string |
| Json.EscapeExamples | src/dashboard/dashboard.cpp:33-54 | the escapes of the control characters by their codes |
| Json.EscapedIsLegal | src/dashboard/dashboard.cpp:33-54 | escaped text holds no control character, and an odd number of backslashes stands before every quote in it |
| Json.ReadLiteralAt | src/dashboard/dashboard.cpp:67-89 | the character loop computes the literal's value |
| Json.ParseJsonString | src/dashboard/dashboard.cpp:58-90 | the search for the key and the loop compute the specified value |
| Json.ReadEscaped | src/dashboard/dashboard.cpp:33-90 | reading an escaped string gives it back if it holds no control character without a short escape, and fails otherwise |
| Reload.NumberIsRead | src/dashboard/dashboard.cpp:92-109 | a printed number is read back, and refused beyond 2^31 - 1 |
| Reload.ParseRequest | src/dashboard/dashboard.cpp:380-399 | an accepted request selects exactly one model |
| Reload.OtherKeyIsAbsent | src/dashboard/dashboard.cpp:58-66 | in a one-selector body no other key has a value, whatever the selector's value contains |
| PageRequest.PageRequestIsParsed | src/dashboard/dashboard.cpp:380-399 | what is made of the page's load request, for every selector, context size and thread count: all three as sent, except that the context size is taken for the thread count if and only if the selector is the word threads or ends with it behind a quote |
| PageRequest.MisleadingExactly | src/dashboard/dashboard.cpp:92-97 | a selector holds a quoted word, as the search sees it, if and only if it is the word or ends with it behind a quote |
| PageRequest.MisreadExample | src/dashboard/dashboard.cpp:398-399 | a model file named threads is asked for with as many threads as context positions |
| Reload.ReloadIsIdentity | src/dashboard/dashboard.cpp:444-452 | a reload asks for exactly the configuration in force if the selection is reloadable, and is refused if not |
| Reload.AcceptedButNotReloadable | src/dashboard/dashboard.cpp:45-47 | every path with a raw control character is accepted and then refused on reload |
| Listing.ListModels | src/api/edge_mind_api.cpp:246-277 | one line for each registry entry, empty unless the registry loads |
| Listing.LineExample | src/api/edge_mind_api.cpp:246-277 | the line of one record |
| Listing.ModelsAsJson | src/dashboard/dashboard.cpp:133-164 | one JSON object for each line that reads as a record, separated by commas |
| Listing.ReadRecordOfLine | src/dashboard/dashboard.cpp:140-155 | a listable record is read back from its line |
| Listing.ListingIsReadBack | src/dashboard/dashboard.cpp:121-164 | the records read are the records printed if and only if every one is listable |
| ListingJson.RecordIsRead | src/dashboard/dashboard.cpp:156-161 | an independent reader reads a record's object as its five members, in order |
| ListingJson.ArrayIsRead | src/dashboard/dashboard.cpp:133-164 | and the array as the members of all records, in order |
| ListingJson.ModelsPage | src/dashboard/dashboard.cpp:458-461 | from registry to page: with only listable entries the array has one object for each entry, with that entry's fields; empty unless the registry loads |
| Dashboard.Handles.Create | src/api/edge_mind_api.cpp:145-163 | a handle is returned on success and on the three failures that keep it, and deleted otherwise |
| Dashboard.DashboardServer.UnloadCurrent | src/dashboard/dashboard.cpp:372-378 | destroys the held handle, if any, and clears it |
| Dashboard.DashboardServer.LoadFromRequest | src/dashboard/dashboard.cpp:380-442 | a refused request changes nothing; an accepted one destroys the old runtime before it creates the new one, and adopts the configuration only with a handle |
| Dashboard.DashboardServer.ReloadCurrent | src/dashboard/dashboard.cpp:444-452 | loads from the body built out of the stored selection |
| Dashboard.DashboardServer.StreamGeneration | src/dashboard/dashboard.cpp:317-339 | every use of the runtime during a stream is of the handle it started with |
| Dashboard.ReloadRestarts | src/dashboard/dashboard.cpp:444-452 | with one selector stored, a reload replaces the runtime for the same configuration, or changes nothing at all |
| Dashboard.ServedExactly | src/dashboard/dashboard.cpp:266-340 | what one request changes of configuration, runtime, status and handles; a runtime is left by an accepted load or reload with one of the four statuses that keep a handle |
| Dashboard.ConfigInForce | src/dashboard/dashboard.cpp:380-442 | after any requests the configuration in force is the one asked for by the latest request that left a runtime |
| Dashboard.InitialConfigInForce | src/dashboard/dashboard.cpp:380-442 | and the initial one when none did |
| Dashboard.RuntimeIsLeftBehind | src/dashboard/dashboard.cpp:266-340 | a runtime is held at the end if and only if an accepted load or reload kept one and nothing after it cleared it |
| Dashboard.ServedIsTidy | src/dashboard/dashboard.cpp:266-340 | between requests every handle created is live or destroyed, and the live one is the one held |
| Interleaving.DecidingCompletes | src/dashboard/dashboard.cpp:266-340 | a handler's actions, run without interruption, amount to its one-step specification |
| Interleaving.EveryInterleavingIsSerial | src/dashboard/dashboard.cpp:266-340 | every interleaving equals serving whole requests in the order they got the mutex, each at most once |
| Interleaving.HandlesAreSafe | src/dashboard/dashboard.cpp:266-378 | at every moment no fault, at most one live handle, and a streaming generation's handle is it |
| Interleaving.LiveWhenDone | src/dashboard/dashboard.cpp:266-370 | when all handlers are done, a handle is live if and only if one that was served left it behind; otherwise every handle created has been destroyed |
| Interleaving.LiveAfterStop | src/dashboard/dashboard.cpp:361-370 | when one of them was a stop, a handle is live if and only if one served after it left it behind |
| Interleaving.NothingLivesAfterStop | src/dashboard/dashboard.cpp:361-370 | so nothing is live when no load or reload was served after a stop |
| Interleaving.ReachableReloadRestarts | src/dashboard/dashboard.cpp:283-292 | in every reachable state with the mutex free and a model selected, a reload restarts the same configuration or changes nothing |
| Interleaving.HealthExactly | src/dashboard/dashboard.cpp:454-456 | the unlocked report is the serial state's when the mutex is free; otherwise it differs from the state found and the state left exactly while one runtime replaces another, and names a destroyed runtime exactly until the pointer is cleared |
| Interleaving.HealthGap | src/dashboard/dashboard.cpp:454-456 | such a disagreement is reached |
| Interleaving.LoadBehindStopLeaks | src/dashboard/dashboard.cpp:361-370 | a load that gets the mutex after the stop leaves its handle live |
| Interleaving.HolderFinishes | src/dashboard/dashboard.cpp:266-340 | the holder of the mutex, scheduled often enough, finishes and frees it |

## Left out

- llama.cpp, the tokenizer, the sampler and chat templates: foreign code; their answers are arbitrary parameters.
- HTTP routing, SSE framing, bearer tokens, static pages, the other JSON reports of the dashboard and the command-line tools: library plumbing and user interface. A generate request with an empty or missing prompt is answered before it takes the mutex, so it is no handler of the state machine.
- Diagnostic texts, report strings and status-to-text or status-to-status switches, `model_ftype_name` and `select_model_for_cli`: one-branch lookups. The two lookups whose results reach a file or the listing are arbitrary functions.
- Floating-point sampling parameters: one boolean stands for their range checks, and they are not fields of the dashboard's configuration.
- The operating system: a disk is a map from paths to contents with an atomic rename and opens and writes that may fail; power loss, file locking, Windows text mode and `MoveFileExA`, symbolic links and several processes writing at once are not modelled.
- A load's file-existence test in the engine and its verification are answered separately, as the file may change in between.
- Dashboard.Handles: a handle is a number; what runs behind it is the subject of `Runtime`, and the outcome of creating it is a parameter of the request.
- Inference.ContextManager.CanAccept: adds unbounded integers where the code adds 32-bit ones, so an overflow for a context near 2^31 positions is not modelled.
- Model files are apart from the disk that holds the two state files: a model path that names a state file or its temporary file, which a save would truncate before the model is read, is not modelled.
- Quota.QuotaIsNeverExceeded: assumes that the save of a rollover found by an admission check succeeds and that the clock stays within what the store accepts; `MessagesWithinExactly` and `TokensWithinExactly` say exactly what happens without these assumptions.
- Interleaving: the mutex is taken in any order the scheduler picks, and no fairness is claimed; of the reports only the health report is modelled, since the others that read the runtime take the mutex and do with its handle what a reset does.
- PageRequest.PageBody: the page's request with one of its two selector fields filled in; with both or neither it is refused or asks for nothing, as `Reload.ParseRequest` has it, and what else the page may send is not modelled.
- The primes behind the round constants are listed, not proved prime.
- Collision resistance of SHA-256, tensor data and the semantics of model weights: not decided by this code.
