# Waywallen: a verified model of the bridge and of the daemon's core algorithms

Waywallen runs wallpaper renderers as separate processes. A renderer links the C *bridge*, which
allocates GPU buffers, hands frames to the daemon over a stream socket and recycles the buffers as a
release timeline advances. The daemon, written in Rust, keeps a catalogue of wallpapers, unpacks
archives and runs background tasks. This project models seven parts of the two and proves what they
promise.

| part | files |
|---|---|
| buffer pool (`bridge/src/pool.c`) | `PoolSpec`, `PoolSystem`, `PoolSafety`, `PoolBanks`, `PoolAnswers`, `PoolWaiting`, `PoolResources`, `PoolTrace`, `PoolExamples`, `Pool` |
| wire codec (`bridge/src/ipc_v3.c`) | `Utf8`, `WireSpec`, `WireProofs`, `WireStable`, `WireRefusals`, `WireWriter`, `WireReader`, `Messages`, `MessageLayout`, `Announce` |
| framing, render target, format list (`bridge/src/bridge.c`) | `Framing`, `RenderTarget`, `FormatCaps` |
| archives (`src/archive.rs`) | `ArchivePaths`, `ArchivePreflight`, `ArchiveExtract` |
| sorting (`src/catalog/query.rs`) | `StableSort`, `CatalogSort` |
| filters (`src/model/filter.rs`) | `LikePattern`, `Conditions`, `WallpaperFilter`, `TextQueries` |
| tasks (`src/tasks.rs`) | `Tasks`, `TaskHistory`, `TaskBounds`, `TaskFate`, `TaskExamples`, `TaskManager` |

How it is built:

- **Pool.** Each critical section is a function from the old fields and the answers of the outside
  world (polls, descriptor numbers, allocator and transport results) to the new fields, the result
  and the calls made (`PoolSpec`). `PoolSystem` puts the pool into a world of frames on the wire, a
  monotone timeline, slot contents, identities handed out and a ledger of descriptors and slots, and
  defines runs. Submit is split where the C code releases the mutex; the session may be lost in
  between, and a send that fails may have written all of its frame, a part, or nothing. Apply, prepare
  and commit are split into their check and the rest; the render thread makes them, so in between
  nothing is granted and no other of them begins, but time passes, fences come, stale identities are
  presented and the session may be lost.
  `PoolObject.Pool` is the struct as an object updated in place, every method proved to do what the
  function says. Runs are shorter than 2^64 - 2 steps, so that no 64-bit counter wraps.
- **Codec.** The C code is generated from a protocol description, so messages are schemas: one writer
  and one reader for every schema, with loops, a block that doubles, padding by buffer position and
  lengths patched in afterwards. The C bit operations are written as division and remainder.
- **Framing.** The kernel is a script that says, call after call, how many bytes move, or that the call
  is interrupted or fails. Every script is allowed.
- **Filters.** Conditions are evaluated in SQL's three-valued logic.
- **Tasks.** Every public call and every turn of the supervisor is one step. A panicking task leaves
  its record running until shutdown, as in the code.

Where the code and its own comments or names disagree, the code is followed:

- `src/tasks.rs:164-165` says that a token lives only while its task runs. A cancelled task keeps its token
  until it is joined, and for good when that join is an abort or a panic; a panicked task that was not
  cancelled counts as running and keeps its token until the supervisor exits. `TokensExactly` says when there
  is a token and `TokenOfRunningExactly` when its task runs; `CancelLeavesBoth`, `AbortLeavesBoth` and
  `PanicLeavesBothUntilExit` are states that runs reach.
- `src/tasks.rs:167` says that a key names a running task. It does unless that task was cancelled, or was
  submitted to a closed queue by a call that leaves the key in place (`KeysExactly`, `KeyOfRunningExactly`;
  reached in `CancelLeavesBoth` and `LateKeepsKey`).
- `src/tasks.rs:407-408` says that finished records are capped. The cap is applied by submissions only: until
  the next one, finished records can exceed it exactly when there are more records than the cap (`CapExactly`),
  and a run reaches any number of them (`CapExceeded`). `RecordsAfterSubmission` says how many records each
  submission leaves.
- The search box escapes its text (`src/model/filter.rs:238-249`), the column filters do not
  (`src/model/filter.rs:279-282`): "contains" is a substring test there exactly for values without `%`
  and `_` (`PlainContainsExactly`).
- A failed announcement marks the session lost after a commit (`bridge/src/pool.c:636-640`) but not
  after an applied directive (`bridge/src/pool.c:520-524`).

## Model

| member | source | states |
|---|---|---|
| `PoolSafety.RunInv` | bridge/src/pool.c:669-987 | the protocol invariant (points, pending transaction, frames on the wire, retained content, identities) holds in every state of every run |
| `PoolSafety.GrantedOnlyWhenReleased` | bridge/src/pool.c:681-753 | in every run a slot is granted, for rendering or republishing, only while no transaction is open and only when every frame sent for it in this generation has been released; the identity was never handed out before |
| `PoolSafety.OneUnreleasedFramePerSlot` | bridge/src/pool.c:887-913 | two frames of one slot and generation are never both unreleased on the timeline |
| `PoolSafety.WirePointsIncrease` | bridge/src/pool.c:873-905 | release points on the wire strictly increase over whole runs, across rebinds and failed sends |
| `PoolSafety.RememberedPointsDistinct` | bridge/src/pool.c:904-905 | the points remembered per slot are at most the last committed one, and nonzero ones are pairwise different |
| `PoolSafety.RetainedContentIsNewest` | bridge/src/pool.c:906-913 | while content is retained its slot is of the current generation, carries the newest point, is not granted for rendering, and the newest committed frame showed what the slot still shows |
| `PoolSafety.RepublishResendsNewest` | bridge/src/pool.c:936-987 | every republished frame repeats generation, slot and content of the frame sent just before it, under a later point |
| `PoolSafety.AcquireOutcome` | bridge/src/pool.c:669-759 | a successful acquire took an unused slot or one whose poll said released, opened exactly that transaction and dropped the retained content only when it took that slot; an unsuccessful one moved nothing but the serial |
| `PoolSafety.RebindKeeps` | bridge/src/pool.c:54-62 | resetting the release state while nothing is in flight keeps every promise about frames already sent |
| `PoolSafety.WireKept` | bridge/src/pool.c:669-817 | a step that neither sends nor completes a frame keeps every promise about the wire |
| `PoolBanks.ConsumedAlwaysRefused` | bridge/src/pool.c:799-860 | in every run an identity that was handed out and is no longer the open transaction is refused ever after by abort and submit; no pool state changes, and submit closes only the fence it was given |
| `PoolAnswers.AcquireAnswers` | bridge/src/pool.c:669-759 | in every run acquire reports a lost session exactly then, refuses without a bank or with a transaction open and moves nothing, and else, with faultless polls and backend, grants a slot if and only if one is found free, and answers BUSY otherwise |
| `PoolAnswers.AbortAnswers` | bridge/src/pool.c:799-817 | in every run an abort answers 0 if and only if the identity is the open acquire and no submit is open; then no transaction is open, nothing else moved, nothing is refused as busy any more and the identity is refused ever after; each other answer has its exact case and changes nothing |
| `PoolAnswers.SubmitAnswers` | bridge/src/pool.c:831-881 | in every run the first half of submit reserves the next point if and only if the session is live, the identity is the open acquire, no submit is open and the fence, if any, was duplicated; each refusal has its case and its effect |
| `PoolAnswers.FinishAnswers` | bridge/src/pool.c:893-919 | in every run the second half of submit ends the transaction: a sent frame moves the committed point, its slot's point and, with a fence, the latest content; a failed one moves none of them and loses the session |
| `PoolAnswers.RepublishAnswers` | bridge/src/pool.c:922-987 | in every run republish goes ahead if and only if the session is live, content is retained, no transaction is open, the newest frame is released and the fence was duplicated; each other answer has its exact case |
| `PoolAnswers.RebindAnswers` | bridge/src/pool.c:54-62 | in every run an apply or commit past its check leaves no point, no transaction and no content behind, starts rotation and serials anew and keeps the committed point; which of them lose the session |
| `PoolAnswers.ResetIs` | bridge/src/pool.c:46-62 | what a new pool remembers, what clearing the content touches, and what a reset forgets and keeps |
| `PoolAnswers.DirectiveAnswers` | bridge/src/pool.c:231-275 | a directive is accepted if and only if count, probe, path, source, format and release mode are as required; when the refusal is "malformed" and when "not supported" |
| `PoolAnswers.RefusalAnswers` | bridge/src/pool.c:451-574 | when apply and prepare pass their checks, and when they answer busy, lost or out of range |
| `PoolAnswers.UniformIs` | bridge/src/pool.c:147-163 | which banks are announced: all slots with one and the same number of planes, from one to four |
| `PoolBanks.CandidateWasPrepared` | bridge/src/pool.c:554-599 | in every run the candidate is exactly what one earlier prepare built, with every allocation granted |
| `PoolBanks.CommitInstallsPrepared` | bridge/src/pool.c:607-646 | in every run a commit past its check installs backend, directive, extent, count and slots of one earlier prepare together, under a new generation; besides, only apply touches the active bank, and not while a candidate waits |
| `PoolBanks.CheckStillHolds` | bridge/src/pool.c:451-615 | in every run, whatever comes between the check of apply, prepare or commit and the rest of it, what the check saw still holds then, but for the session, which may have been lost |
| `PoolBanks.AppliedIsAnswered` | bridge/src/pool.c:451-526 | in every run an apply past its check is answered once: by the announcement of the bank in place, or by a failure when no slot is left; only a bank with mixed planes goes unannounced |
| `PoolExamples.ShownTwice` | bridge/src/pool.c:451-987 | a run that applies a directive, acquires, draws, submits, sees the frame released and sends it again |
| `PoolWaiting.BusyExactly` | bridge/src/pool.c:694-723 | acquire reports BUSY if and only if a grant is admissible and every slot carries a nonzero point whose poll would block |
| `PoolWaiting.BusyMeansAllUnreleased` | bridge/src/pool.c:694-723 | after BUSY on an ordered timeline every slot's point is still unreleased |
| `PoolWaiting.MinimumReadyFirst` | bridge/src/pool.c:780-785 | on an ordered timeline the smallest point is released as soon as any is |
| `PoolWaiting.WaitOnMinimumUnblocks` | bridge/src/pool.c:761-797 | once the timeline has reached the smallest point the next attempt cannot report BUSY, and without faults it grants a released slot |
| `PoolWaiting.NextPoint` | bridge/src/pool.c:780-784 | the point waited for is the least nonzero point of the slots, or the largest 64-bit value when there is none |
| `PoolResources.NothingLeaksNothingDoubles` | bridge/src/pool.c:84-100 | in every state of every run the open descriptors are exactly those pool, candidate, unfinished submit and caller hold, one owner each; live slots and backends are those of the two banks; no descriptor was closed that was not open, no slot freed that was neither live nor just refused, no backend dropped with slots left |
| `PoolResources.DestroyReleasesEverything` | bridge/src/pool.c:346-372 | destroying the pool after any run, with no send in flight, leaves no slot, no backend and no descriptor but the fences the caller owns |
| `PoolResources.TeardownExactly` | bridge/src/pool.c:64-94 | a teardown frees exactly the slots in use and closes exactly the non-negative descriptors found in their planes |
| `PoolResources.PerformTeardown` | bridge/src/pool.c:64-94 | tearing down a bank whose slots are live or just refused frees each of them and closes each of its descriptors, without fault and no more |
| `PoolResources.PrepareBalanced` | bridge/src/pool.c:554-599 | preparing a target keeps the accounts balanced and faultless, also when an allocation fails half-way and the refused slot is freed with the others |
| `PoolResources.ApplyBalanced` | bridge/src/pool.c:451-526 | applying a directive keeps the accounts balanced and faultless, also when an allocation fails half-way |
| `PoolResources.CommitBalanced` | bridge/src/pool.c:607-646 | committing a target keeps the accounts balanced and faultless: slots, descriptors and backend of the old bank are released once |
| `PoolResources.ReserveBalanced` | bridge/src/pool.c:831-871 | every way out of the first half of submit closes or hands on the fence exactly once |
| `PoolResources.FinishBalanced` | bridge/src/pool.c:890-919 | the second half of submit keeps or closes the retained duplicate exactly once, and closes the one it replaces |
| `PoolTrace.EveryReleaseHits` | bridge/src/pool.c:64-100 | every close of a run hits an open descriptor, every backend dropped has no slot left, and every slot freed is live, or is the one slot whose allocation was refused before in the same prepare |
| `PoolTrace.ReleasedOnce` | bridge/src/pool.c:84-100 | over every run each slot is freed as often as it was handed to the backend, less one if it is live, and each descriptor closed as often as it was opened, less one if it is open |
| `PoolTrace.AllReleasedOnce` | bridge/src/pool.c:346-372 | with the calls of destroy each slot is freed exactly as often as it was handed out, and each descriptor closed as often as opened, but for those the caller holds |
| `PoolSpec.FlattenAt` | bridge/src/pool.c:157-170 | entry s * planes + pl of an announcement is plane pl of slot s, and there are count * planes entries |
| `PoolSpec.FindUnused` | bridge/src/pool.c:694-701 | the first slot in rotation order that was never submitted, all before it were |
| `PoolSpec.FindSettled` | bridge/src/pool.c:702-717 | the first slot in rotation order whose poll does not ask to wait, all before it do |
| `PoolObject.Pool.constructor` | bridge/src/pool_internal.h:76-123 | a zeroed struct with every descriptor unset |
| `PoolObject.Pool.ClearLatestContent` | bridge/src/pool.c:46-52 | closes the retained fence and forgets the latest content |
| `PoolObject.Pool.ResetReleaseState` | bridge/src/pool.c:54-62 | zeroes points and transactions in place, closing the retained fence |
| `PoolObject.Pool.SelectSlot` | bridge/src/pool.c:694-723 | the two loops select what the specification selects |
| `PoolObject.Pool.GrantSlot` | bridge/src/pool.c:725-758 | the tail of acquire changes the fields and closes descriptors as specified |
| `PoolObject.Pool.TryAcquire` | bridge/src/pool.c:669-759 | new fields, result and calls are those of the specification, in every case |
| `PoolObject.Pool.AbortAcquiredSlot` | bridge/src/pool.c:799-817 | new fields and error code are those of the specification |
| `PoolObject.Pool.SubmitReserve` | bridge/src/pool.c:831-881 | the first critical section of submit, with its four refusals and the failed duplicate |
| `PoolObject.Pool.CommitFrame` | bridge/src/pool.c:904-916 | a sent frame: point, slot's point and retained content, in place |
| `PoolObject.Pool.SubmitFinish` | bridge/src/pool.c:893-919 | the second critical section of submit, for a sent and for a failed frame |
| `PoolObject.Pool.TryRepublishLatest` | bridge/src/pool.c:922-987 | republish up to its call of submit, in every case |
| `PoolObject.Pool.NextReleasePoint` | bridge/src/pool.c:779-785 | the loop over the slots finds the least point |
| `PoolObject.Pool.CloseSlotFds` | bridge/src/pool.c:64-74 | the loops close every descriptor of the slots in use, once, in order |
| `PoolObject.Pool.TeardownSlots` | bridge/src/pool.c:84-100 | frees and closes all slots, clears the layouts and resets the release state |
| `PoolObject.Pool.PlanesAgree` | bridge/src/pool.c:147-163 | true exactly when all slots agree on a plane count from 1 to 4 |
| `PoolObject.Pool.FlattenPlanes` | bridge/src/pool.c:165-178 | the nested loops fill the flat arrays with the specified entries |
| `PoolObject.Pool.EmitBindBuffers` | bridge/src/pool.c:134-229 | takes a generation, also when it then fails, and announces the bank |
| `PoolObject.Pool.ApplyDirective` | bridge/src/pool.c:451-526 | fields, error code, announcement, failure report and calls are those of the specification, also after a refused allocation |
| `PoolObject.Pool.PrepareTarget` | bridge/src/pool.c:554-599 | builds the candidate object slot by slot, or undoes it, as specified |
| `PoolObject.Pool.AbortTarget` | bridge/src/pool.c:543-552 | releases the candidate's slots and backend and forgets it |
| `PoolObject.Pool.SwapBanks` | bridge/src/pool.c:616-631 | exchanges backend, allocation, count and every slot layout, element by element |
| `PoolObject.Pool.CommitTarget` | bridge/src/pool.c:607-646 | fields, error code, generation, announcement and calls are those of the specification |
| `PoolObject.Pool.Destroy` | bridge/src/pool.c:346-368 | the calls made are those of the specification, the session is lost and no slot is left |
| `Utf8.AcceptsExactly` | bridge/src/ipc_v3.c:449-467 | the recogniser accepts a byte sequence if and only if it is the concatenated encoding of Unicode scalar values (RFC 3629, sections 3 and 4) |
| `Utf8.EncodeInjective` | bridge/src/ipc_v3.c:449-467 | accepted bytes encode one text only |
| `Utf8.FrontOfScalar` | bridge/src/ipc_v3.c:449-467 | an encoded scalar value is read back, whatever follows |
| `Utf8.ScalarOfFront` | bridge/src/ipc_v3.c:449-467 | what is read is a scalar value in its shortest form |
| `Utf8.ScalarIs` | bridge/src/ipc_v3.c:464 | the scalar values are the code points up to U+10FFFF without the two surrogate blocks |
| `Utf8.TaggedUtf8` | bridge/src/ipc_v3.c:449-467 | the loop returns true exactly for encodings of scalar values |
| `WireProofs.RoundTrip` | bridge/src/ipc_v3.c:116-379 | for every schema and message, decoding the encoding followed by any bytes returns the message and leaves exactly those bytes |
| `WireProofs.MessageRoundTrip` | bridge/src/ipc_v3.c:1903-1928 | a message decoder accepts what the encoder wrote, returns the message, and the length is a multiple of four |
| `WireProofs.Aligned` | bridge/src/ipc_v3.c:109-128 | everything a writer appends has a length divisible by four, nested records included |
| `WireProofs.PaddingAgrees` | bridge/src/ipc_v3.c:287 | padding by position and padding by length agree if and only if the string starts on a multiple of four |
| `WireProofs.BodyExactly` | bridge/src/ipc_v3.c:418-447 | a tagged body decodes to given values if and only if it is a list of at most 256 fields with nonzero distinct tags and lengths divisible by four in which every field of the schema occurs and gives its value |
| `WireProofs.OrderAndUnknownFieldsIgnored` | bridge/src/ipc_v3.c:1740-1807 | two bodies with the same known fields, in any order and among any unknown ones, decode alike |
| `WireProofs.RequiredOnceEach` | bridge/src/ipc_v3.c:1740-1807 | no record is read with a required field missing or a tag repeated |
| `WireProofs.PackInjective` | bridge/src/ipc_v3.c:431-447 | bytes split into tagged fields in one way only |
| `WireProofs.LoopSound` | bridge/src/ipc_v3.c:1748-1799 | whatever body the field loop accepts is a proper list of fields, and the values are those the fields give |
| `WireProofs.LoopComplete` | bridge/src/ipc_v3.c:1748-1799 | the field loop accepts every proper list whose known fields are right |
| `WireProofs.ValidatorAccepts` | bridge/src/ipc_v3.c:469-500 | the value check accepts what a writer of that kind wrote |
| `WireProofs.TextRead` | bridge/src/ipc_v3.c:282-301 | a NUL-free string is read back from its encoding, whatever follows |
| `WireRefusals.ScalarsTaken` | bridge/src/ipc_v3.c:215-262 | numbers, booleans and enumerations: what bytes give which value, and which code refuses the rest |
| `WireRefusals.StringTaken` | bridge/src/ipc_v3.c:282-299 | strings: exactly when they are too short, unterminated or of length 0, and else the bytes up to the first NUL |
| `WireRefusals.CountsTaken` | bridge/src/ipc_v3.c:303-320 | a list claiming more elements than bytes left is refused before any is read |
| `WireRefusals.RecordTaken` | bridge/src/ipc_v3.c:418-429 | the head of a record: limits, lengths, and the body only for revision 1 |
| `WireRefusals.UnknownRevision` | bridge/src/ipc_v3.c:418-429 | a record of another revision is skipped whole and lacks every field |
| `WireRefusals.FieldTaken` | bridge/src/ipc_v3.c:431-447 | the next field of a body, byte by byte: exactly when it is refused and with what |
| `WireRefusals.ValidString` | bridge/src/ipc_v3.c:478-488 | the validator's string: exactly which bytes pass, and the code for the others |
| `WireRefusals.CompoundTaken` | bridge/src/ipc_v3.c:469-500 | arrays and pairs of at most 1024 elements, and records skipped by their length |
| `WireRefusals.TextWritten` | bridge/src/ipc_v3.c:116-119 | which strings a writer takes |
| `WireRefusals.TaggedWritten` | bridge/src/ipc_v3.c:1684-1737 | which tagged records a writer takes: every part, each within 32 bits of length, a body of at most 65520 bytes |
| `WireStable.DecodingIsStable` | bridge/src/ipc_v3.c:1903-1928 | whatever bytes a message was read from, it can be written again in no more room and is then read as the same message |
| `WireStable.DecodedResendable` | bridge/src/ipc_v3.c:282-379 | every decoded value is a message that can be sent: typed, within the writers' limits, tagged strings well-formed and short |
| `WireStable.EntriesFit` | bridge/src/ipc_v3.c:1407-1532 | re-encoding a tagged record needs no more room than the body it came from |
| `WireWriter.Buffer.constructor` | bridge/src/ipc_v3.c:29-33 | an empty buffer |
| `WireWriter.Buffer.Reserve` | bridge/src/ipc_v3.c:42-58 | keeps the contents and makes room, failing exactly when more than 2^63 bytes are needed |
| `WireWriter.Buffer.SizeFor` | bridge/src/ipc_v3.c:46-51 | the doubling loop ends in a power-of-two block that is large enough, or fails exactly when there is none |
| `WireWriter.Buffer.WriteBytes` | bridge/src/ipc_v3.c:64-71 | appends all bytes or fails and keeps the contents |
| `WireWriter.Buffer.WriteText` | bridge/src/ipc_v3.c:116-128 | appends length, bytes, NUL and padding by position; fails exactly for strings that do not fit |
| `WireWriter.Buffer.Patch` | bridge/src/ipc_v3.c:408-410 | overwrites the four bytes at a position and nothing else |
| `WireWriter.Buffer.Write` | bridge/src/ipc_v3.c:116-211 | the writer of any schema appends its encoding, or fails exactly when a limit is exceeded, the old contents still a prefix |
| `WireWriter.Buffer.WriteItems` | bridge/src/ipc_v3.c:139-211 | the loop over an array or list writes the elements in order |
| `WireWriter.Buffer.WriteEntry` | bridge/src/ipc_v3.c:1676-1690 | one tagged field, its length patched in afterwards, is the field's packed form |
| `WireWriter.Buffer.WriteTagged` | bridge/src/ipc_v3.c:1676-1738 | a tagged record with back-patched lengths is its framed encoding; more than 65520 bytes are refused |
| `WireReader.Reader.ReadText` | bridge/src/ipc_v3.c:282-301 | takes length, bytes and padding; short, unterminated and empty strings fail with their codes |
| `WireReader.Reader.Read` | bridge/src/ipc_v3.c:228-379 | the reader of any schema takes exactly the bytes the specification takes and returns its value, or its error |
| `WireReader.Reader.ReadItems` | bridge/src/ipc_v3.c:303-351 | the loop over an array reads the elements in order, stopping at the first error |
| `WireReader.Reader.TaggedBegin` | bridge/src/ipc_v3.c:418-429 | checks and skips the body, which is empty for an unknown revision |
| `WireReader.Reader.Validate` | bridge/src/ipc_v3.c:469-500 | the value check of every kind, arrays, lists and nested records included |
| `WireReader.TaggedReader.Next` | bridge/src/ipc_v3.c:431-447 | the next field, remembered by its tag; repeated and zero tags and a 257th field are refused |
| `WireReader.ReadBody` | bridge/src/ipc_v3.c:1740-1807 | the field loop and the check for missing fields decode as specified |
| `WireReader.ReadMessage` | bridge/src/ipc_v3.c:1910-1928 | a message decoder accepts and refuses as specified, trailing bytes included |
| `MessageLayout.BufferPoolTravels` | bridge/src/ipc_v3.c:813-837 | a buffer_pool is written as its fields in their order, byte by byte, and the record read back is the one written |
| `MessageLayout.MprisTravels` | bridge/src/ipc_v3.c:1010-1032 | the same for an mpris_snapshot with NUL-free strings |
| `MessageLayout.SubscriptionResultTravels` | bridge/src/ipc_v3.c:923-939 | the same for an event_subscription_result |
| `MessageLayout.RendererInitTravels` | bridge/src/ipc_v3.c:1819-1835 | the same for a renderer_init with its list of pairs |
| `MessageLayout.CapabilitiesTravel` | bridge/src/ipc_v3.c:1192-1395 | a render_target_capabilities event is written tag by tag, kinds and lengths included, and the record read back is the one written |
| `MessageLayout.ConfigTravels` | bridge/src/ipc_v3.c:1407-1665 | the same for a configure_render_target event |
| `MessageLayout.OutcomeTravels` | bridge/src/ipc_v3.c:1676-1807 | the same for a render_target_result event with a well-formed message of at most 4096 bytes |
| `MessageLayout.EnumerationsTaken` | bridge/src/ipc_v3.c:539-620 | which numbers a reader takes for the enumerations of the records |
| `MessageLayout.LittleEndian` | bridge/src/ipc_v3.c:64-107 | numbers stand least significant byte first |
| `Messages.OneFieldSurvives` | bridge/src/ipc_v3.c:2440-2475 | an event around any sendable record that leaves it room is encodable and read back unchanged |
| `Announce.MessageSize` | bridge/src/ipc_v3.c:813-824 | a bind_buffers message takes 52 bytes and sixteen per plane |
| `Announce.AnnouncementFits` | bridge/src/pool.c:165-229 | the announcement of every bank is a well-formed message that fits into one frame, and its descriptors into one call |
| `Announce.AnnouncementTravels` | bridge/src/pool.c:165-229 | what a receiver reads of the bytes of an announcement is the bank: generation, count, format, extent, host visibility, and for each plane of each slot, at its place, stride, offset, size and descriptor |
| `Framing.ParseOfWire` | bridge/src/bridge.c:135-147 | a receiver takes a frame's bytes for that frame, whatever follows |
| `Framing.PartNeverParsed` | bridge/src/bridge.c:191-207 | no proper part of a frame is ever taken for a frame |
| `Framing.BodyLimit` | bridge/src/bridge.c:135-147 | the limit on bodies is what sixteen bits of length can say, and the bytes of a frame |
| `Framing.StreamParsed` | bridge/src/bridge.c:209-301 | a receiver that takes frame after frame from concatenated frames gets them all, in order |
| `Framing.Sender.WriteAll` | bridge/src/bridge.c:105-118 | for every pattern of short writes, interruptions and faults: success sends exactly all bytes, failure a proper part, and a socket without faults succeeds |
| `Framing.Sender.SendFrame` | bridge/src/bridge.c:135-207 | the same for a whole frame across sendmsg and the two write loops; oversized bodies and too many descriptors are refused before anything is sent |
| `Framing.Sender.Finish` | bridge/src/bridge.c:191-204 | the rest of a frame after any short count, header first, then body |
| `Framing.Receiver.ReadAll` | bridge/src/bridge.c:120-133 | for every pattern of short reads: success returns exactly the next bytes |
| `Framing.Receiver.RecvFrame` | bridge/src/bridge.c:209-301 | a received frame is the one the stream begins with; without faults it is received whenever it is there, and else the error is the specified one |
| `Framing.SendAll` | bridge/src/bridge.c:135-207 | a list of frames leaves the concatenated frames on the wire, or, after a failure, whole frames and a part of the next |
| `Framing.ReceiveAll` | bridge/src/bridge.c:209-301 | a receiver that takes frames until one does not come gets a prefix of what was sent, and on a smooth socket all of it |
| `Framing.Transfer` | bridge/src/bridge.c:105-301 | end to end, for every list of frames and every pattern of short sends, short reads, interruptions and faults: what is received is a prefix of what was sent, opcodes and bodies in order; after a send without error and reads without faults it is everything |
| `RenderTarget.CrossTestExactly` | bridge/src/bridge.c:399-404 | the last test passes if and only if one positive rational scale makes both dimensions the least aligned multiples covering the scaled reference |
| `RenderTarget.NoOverflow` | bridge/src/bridge.c:384-404 | after the other checks the 32-bit differences never underflow and the 64-bit products never overflow |
| `RenderTarget.LeastCoverIs` | bridge/src/bridge.c:381-404 | an aligned size is the least cover of a scaled reference if and only if the multiple below it does not cover |
| `RenderTarget.ScaleOfTest` | bridge/src/bridge.c:399-404 | when the test passes, the scale filling the tighter dimension serves both |
| `RenderTarget.Validate` | bridge/src/bridge.c:381-415 | accepts exactly the plausible sizes that have a common scale, and returns the directive of the configuration |
| `RenderTarget.PlausibleIs` | bridge/src/bridge.c:384-398 | which sizes pass the checks before the last one: revisions, ranges, multiples of the alignments, and the limits of both modes |
| `FormatCaps.Fill` | bridge/src/bridge.c:628-659 | the loop leaves canonical runs and flat arrays from which a receiver gets the advertised formats back in order |
| `FormatCaps.RunsUnique` | bridge/src/bridge.c:641-653 | the runs of a list of fourccs are determined by the list |
| `ArchivePaths.NormalForm` | src/archive.rs:44-71 | a list of components stands for itself as a name if and only if it is a plain path within the depth limit |
| `ArchivePaths.AcceptedIsPlain` | src/archive.rs:44-71 | every accepted name gives plain components, none empty, dotted, with separators or a drive prefix, at most as many as allowed |
| `ArchivePaths.PathAnswers` | src/archive.rs:44-71 | exactly which names are unsafe, empty, drives or too deep, by their parts between the slashes, and the path of the others |
| `ArchivePaths.RelativePathOf` | src/archive.rs:44-71 | the loop over the components normalises or refuses as specified |
| `ArchivePreflight.AdmitsExactly` | src/archive.rs:73-111 | registering an entry succeeds if and only if the archive with it has distinct paths and no file above another entry |
| `ArchivePreflight.RegisteredDescribes` | src/archive.rs:73-111 | the map after registration holds exactly the entries and their ancestors, with the right kinds |
| `ArchivePreflight.ClosedAndFilesAreLeaves` | src/archive.rs:73-111 | the map is closed under ancestors and no file in it has anything below |
| `ArchivePreflight.OrderDoesNotMatter` | src/archive.rs:113-167 | rearranging the entries changes nothing about whether the archive is accepted: entry checks, budgets and tree together |
| `ArchivePreflight.ConsistentInAnyOrder` | src/archive.rs:73-111 | nor, taken alone, whether the paths make a tree |
| `ArchivePreflight.SameOutputs` | src/archive.rs:113-165 | nor the map of outputs |
| `ArchivePreflight.ModeAnswers` | src/archive.rs:136-144 | by the type bits of its mode an entry passes if it has none or they fit its kind; links, devices, pipes and sockets do not |
| `ArchivePreflight.EntryAnswers` | src/archive.rs:131-158 | which entries pass on their own |
| `ArchivePreflight.ArchiveAnswers` | src/archive.rs:113-165 | which archives pass: number of entries, each entry, the sum of the file sizes, and the tree |
| `ArchivePreflight.Registry.Register` | src/archive.rs:73-111 | the map changed in place is the specified one, and refusals are exactly the specified ones |
| `ArchivePreflight.Preflight` | src/archive.rs:113-167 | accepts exactly the archives whose entries each fit, together fit the budgets, and form a consistent tree |
| `ArchiveExtract.CopyEntry` | src/archive.rs:169-197 | terminates on every reader, endless ones included; both byte budgets hold whatever happens; without faults it succeeds exactly when the source ends within them, everything written |
| `ArchiveExtract.NothingInTheWay` | src/archive.rs:222-250 | neither the directories nor the file of a consistent entry meets anything extracted before it |
| `ArchiveExtract.ExtractEntry` | src/archive.rs:222-270 | one entry never collides, succeeds whenever its data is what was declared, and leaves the tree of the entries so far |
| `ArchiveExtract.Extract` | src/archive.rs:216-272 | extraction into an empty tree never collides; success leaves exactly the entries and their ancestors, every file complete, and reports the sum of the sizes; it succeeds whenever the data is what was declared |
| `ArchiveExtract.ExtractZip` | src/archive.rs:199-272 | refuses exactly a destination that is not empty and an archive the preflight does not accept, writing nothing; otherwise it never collides, success leaves exactly the registered outputs with all data and reports the sum of the sizes, and it succeeds whenever the entries hold what the archive declares |
| `ArchiveExtract.TreeIsTheOutputs` | src/archive.rs:216-272 | the extracted tree has exactly the registered outputs, files where files were registered |
| `ArchiveExtract.FileListIs` | src/archive.rs:252-262 | the reported list has one item for each file, with path and size, in the order of the entries |
| `StableSort.StableSortUnique` | src/catalog/query.rs:188-199 | a list has only one stable sort under a comparison |
| `StableSort.SortedIsStable` | src/catalog/query.rs:188-199 | the sort used for each rule is a stable sort |
| `StableSort.SortedKeepsAll` | src/catalog/query.rs:188-199 | sorting neither loses nor adds an element |
| `StableSort.StableKeepsTies` | src/catalog/query.rs:188-199 | a stable sort leaves the elements that compare equal to any given one in the order they had |
| `CatalogSort.RulesAreComparison` | src/catalog/query.rs:190-196 | the rules taken together are a total, transitive comparison |
| `CatalogSort.SortOverSort` | src/catalog/query.rs:188-199 | a stable sort by one comparison of a stable sort by another is a stable sort by both, the later deciding |
| `CatalogSort.RepeatedIsSingle` | src/catalog/query.rs:188-199 | sorting by each rule from last to first equals the single stable sort by the lexicographic order of the rules with their directions |
| `CatalogSort.RulesMean` | src/catalog/query.rs:190-208 | the comparison puts one entry before another exactly when the first rule under which they differ says so: an ascending one if it is lower by name, type, size (0 when unknown) or time (of creation when never modified), a descending one if the other is |
| `CatalogSort.FirstRuleDecides` | src/catalog/query.rs:188-203 | after sorting, the key of the first rule never decreases along the list, or never increases if the rule is descending |
| `CatalogSort.TiesKeepTheirOrder` | src/catalog/query.rs:188-199 | for every entry, those no rule tells apart from it come in the order they had, whatever stands between them, also under descending rules |
| `CatalogSort.SortEntries` | src/catalog/query.rs:188-203 | the array sorted in place is that single stable sort, a rearrangement of its old contents, and of any two entries the earlier may precede the later by the rules, in terms of their fields alone |
| `LikePattern.LiteralContainsExactly` | src/model/filter.rs:238-249 | with backslash as escape the pattern of a string matches exactly the texts that contain it, ASCII case aside |
| `LikePattern.LiteralContainsPattern` | src/model/filter.rs:238-249 | the loop builds that pattern |
| `LikePattern.PlainContainsExactly` | src/model/filter.rs:279-282 | the unescaped pattern of the column filters is a substring test if and only if the value has no wildcard |
| `LikePattern.BetweenPercents` | src/model/filter.rs:279-282 | a value between percent signs matches exactly the texts some part of which the value matches |
| `LikePattern.LiteralRead` | src/model/filter.rs:265-267 | a quoted value is read by SQL as that value, and the literal ends where the quoting ends |
| `Conditions.BuildGroupedCondition` | src/model/filter.rs:14-75 | none exactly when no rule constrains; otherwise the tree is true, in three-valued logic, exactly of the rows the rules and logics mean |
| `Conditions.CompiledMeaning` | src/model/filter.rs:48-75 | pairs of constrained groups and the groups left over together mean what the rules mean |
| `Conditions.OrderIrrelevant` | src/model/filter.rs:14-75 | reordering or repeating rules or logics changes neither the meaning nor whether there is a condition |
| `WallpaperFilter.FilterMeans` | src/model/filter.rs:118-161 | each predicate compiles to a condition exactly when it applies, and the condition is true exactly of the rows that match: "contains" by some part of the text, missing values included |
| `WallpaperFilter.PlainValues` | src/model/filter.rs:269-297 | for values without wildcards "contains" is having the value as a part, and its negation the opposite, missing values aside |
| `WallpaperFilter.PlainFound` | src/model/filter.rs:218-236 | for such values a text is found if the index finds it or some tag contains it |
| `TextQueries.QueryRead` | src/model/filter.rs:251-263 | the full-text query is read by the index as a prefix term for each word, in order |
| `TextQueries.WordsAre` | src/model/filter.rs:251-256 | the words of a text are those between its stretches of white space |
| `TextQueries.TrimIs` | src/model/filter.rs:105-109 | trimming takes white space off both ends and nothing else |
| `TextQueries.LowerAsciiIs` | src/model/filter.rs:122-127 | a type is looked up without capital letters, otherwise unchanged |
| `TextQueries.ComparesIs` | src/model/filter.rs:128-145 | what the six comparisons of numbers are |
| `WallpaperFilter.TagListCondition` | src/model/filter.rs:163-191 | the loops build the disjunction or conjunction over the nonempty tags |
| `WallpaperFilter.SearchMeans` | src/model/filter.rs:105-116 | a search text that is not blank is found, or occurs literally in the external id; a blank one asks nothing |
| `WallpaperFilter.QueryToCondition` | src/model/filter.rs:89-103 | none exactly when nothing is asked; otherwise true exactly of the rows the filters, logics and text are to select |
| `WallpaperFilter.Validate` | src/catalog/query.rs:164-185 | accepts exactly selections with positive library ids, nonnegative groups and logics between groups in use |
| `Tasks.RunInv` | src/tasks.rs:218-448 | in every state of every run: queued and in-flight tasks are not finished, running async tasks have a token, running keyed tasks are their key's, and nothing runs after exit |
| `Tasks.FinishedForever` | src/tasks.rs:370-387 | in no run does a finished record change again or a dropped one come back |
| `Tasks.OneRunningPerKey` | src/tasks.rs:249-366 | at most one running task has a given key, and the key maps to it |
| `Tasks.RunningCanBeCancelled` | src/tasks.rs:370-387 | every running async task has a token in every run, and cancelling it finishes its record as cancelled |
| `Tasks.NothingRunsAfterExit` | src/tasks.rs:543-624 | once the supervisor has exited no record is running, then or later |
| `Tasks.OnceReuses` | src/tasks.rs:272-298 | returns the running task of the key and changes nothing if there is one, and else a new task; a new one is started exactly when none runs under the key |
| `Tasks.UniqueReplaces` | src/tasks.rs:249-269 | leaves no other running task under the key; the new one runs exactly when the queue was open |
| `Tasks.TrimKeeps` | src/tasks.rs:478-492 | trimming drops no running task, changes none, leaves at most the cap or the running tasks, and drops older finished tasks before newer ones |
| `Tasks.StepKeeps` | src/tasks.rs:218-718 | every public call and every supervisor turn keeps the invariant, no finished record changes and no dropped one returns |
| `Tasks.JoinKeeps` | src/tasks.rs:656-718 | so does a join, for completed, failed, panicked and aborted tasks |
| `TaskHistory.TokensExactly` | src/tasks.rs:164-166 | in every state of every run a task has a token if and only if it is async and is queued, in flight, or was left behind by a panicked or aborted join and not running at the exit |
| `TaskHistory.KeysExactly` | src/tasks.rs:167-169 | in every state of every run a key maps to a task if and only if it is the last one submitted under the key and is queued, in flight, left behind by its join and not running at the exit, or was submitted too late by a call that keeps the key |
| `TaskHistory.TokenOfRunningExactly` | src/tasks.rs:164-166 | in every state of every run the task of a token runs if and only if no step cancelled it while it ran: no cancel, no unique submission under its key, no drain (services excepted) |
| `TaskHistory.KeyOfRunningExactly` | src/tasks.rs:167-169 | in every state of every run the task of a key runs if and only if no step cancelled it while it ran and it was not submitted to a closed queue |
| `TaskHistory.TrippedExactly` | src/tasks.rs:370-387 | in every state of every run a token is tripped if and only if some step cancelled its task while it ran, and so is that of every task recorded as cancelled |
| `TaskHistory.TrippedForever` | src/tasks.rs:370-387 | a tripped token stays tripped as long as it is there |
| `TaskHistory.CancelTrips` | src/tasks.rs:370-387 | a cancel answers true exactly when there is a token; it trips that token and no other, and ends that task and no other |
| `TaskFate.RecordFate` | src/tasks.rs:218-718 | in every step of every run each record changes exactly as it should: completed or failed by its join, cancelled by the calls and turns that cancel it, else untouched; a new one runs, or has failed if the queue is closed |
| `TaskFate.FirstComeFirstServed` | src/tasks.rs:526-535 | in every run tasks are taken up in the order of their submission |
| `TaskFate.ProgressAnswers` | src/tasks.rs:300-366 | a progress submission returns the running task of the key if there is one, and else a new one, with its key only if the queue is open |
| `TaskHistory.PastMeans` | src/tasks.rs:543-584 | the history these speak of, in terms of the steps of the run |
| `TaskHistory.PastCancels` | src/tasks.rs:370-387 | the tasks cancelled so far, in terms of the steps of the run |
| `TaskExamples.CancelLeavesBoth` | src/tasks.rs:370-387 | a reachable state in which a cancelled task has its token and its key |
| `TaskExamples.AbortLeavesBoth` | src/tasks.rs:556-584 | a reachable state after the exit in which a task aborted at the deadline has them still |
| `TaskExamples.PanicLeavesBothUntilExit` | src/tasks.rs:679-682 | a reachable state in which a panicked task counts as running and has both, and the exit that takes them |
| `TaskExamples.LateKeepsKey` | src/tasks.rs:249-269 | a reachable state in which a key names a task that failed because the queue was closed |
| `TaskBounds.RecordsAfterSubmission` | src/tasks.rs:218-366 | after each of the five submissions the number of records is exactly one more than before or 512, or the number of running tasks if that is more, a task just failed by a closed queue counted in; a reusing submission changes nothing |
| `TaskBounds.RecordsBounded` | src/tasks.rs:478-492 | in every state of every run the records number at most 512, or they are those the last submission left, all of them running then but for one a closed queue failed |
| `TaskBounds.CapExactly` | src/tasks.rs:407-411 | without another submission the finished records can exceed 512 if and only if there are more than 512 records |
| `TaskBounds.CapExceeded` | src/tasks.rs:407-411 | a run reaches any number of finished records above 512 |
| `TaskBounds.CanExit` | src/tasks.rs:543-584 | from every state of a run the supervisor can reach its end without another submission |
| `TaskManagerObject.TaskManager.constructor` | src/tasks.rs:176-214 | an empty manager satisfies the invariant |
| `TaskManagerObject.TaskManager.TrimFinished` | src/tasks.rs:478-492 | the loop leaves the specified records |
| `TaskManagerObject.TaskManager.SpawnAsync` | src/tasks.rs:218-247 | the new maps and queue are the specified ones, also when the queue is closed |
| `TaskManagerObject.TaskManager.SpawnBlocking` | src/tasks.rs:390-405 | likewise for a blocking task, which has no token |
| `TaskManagerObject.TaskManager.SpawnAsyncUnique` | src/tasks.rs:249-269 | likewise for a unique submission |
| `TaskManagerObject.TaskManager.SpawnAsyncOnce` | src/tasks.rs:272-298 | likewise for a submission that reuses |
| `TaskManagerObject.TaskManager.SpawnProgressOnce` | src/tasks.rs:300-366 | likewise for a progress submission, which forgets a stale key first and its own key when the queue is closed |
| `TaskManagerObject.TaskManager.Cancel` | src/tasks.rs:370-387 | trips the token and finishes the record of a running task, and reports whether there was a token |
| `TaskManagerObject.TaskManager.Receive` | src/tasks.rs:526-535 | the next message becomes a task in flight |
| `TaskManagerObject.TaskManager.Join` | src/tasks.rs:656-718 | token and keys go, a cancelled record stays cancelled, another gets the observed state; panics and aborts change no map |
| `TaskManagerObject.TaskManager.CloseAndDrop` | src/tasks.rs:543-549 | closing the queue cancels every task left in it |
| `TaskManagerObject.TaskManager.StartDrain` | src/tasks.rs:587-607 | all running tasks but services are cancelled and their tokens tripped |
| `TaskManagerObject.TaskManager.Exit` | src/tasks.rs:609-624 | all running tasks are cancelled, their tokens and keys removed |

## Left out

- GPU backends, probes, fence export and the timeline object itself (`bridge/src/pool_egl_gbm.c`, `bridge/src/pool_vulkan.c`, `bridge/src/sync_release.c`): foreign calls. An allocation either succeeds completely or leaves nothing behind, and a poll reads a timeline that never goes back.
- A run in which a second thread acquires, republishes or begins an allocation call between the check of apply, prepare or commit and the rest of it: their callers make all of these on the render thread. Calls that are refused are no steps of a run, for they change nothing.
- The wrap-around of the 64-bit generation and point counters after 2^64 steps, and the two blocking loops of the pool beyond the point they wait for.
- Allocation failure of the heap (`WW_ERR_NOMEM`, `-ENOMEM`) in codec, framing and pool.
- `Framing.Sender.SendFrame`: descriptors are counted against their limit; that they travel with the first byte is not modelled.
- `Framing.Receiver.RecvFrame`: bytes only; the descriptors received are not modelled.
- `PoolObject.Pool.Destroy`: the timeline object and the memory of the struct are released too; both are outside the model.
- Positional records of the protocol other than the four in `Messages`, and the opcode dispatch: they are further schemas of the same kind.
- Floating point values travel as bit patterns; what they mean is not looked at.
- ZIP decoding, reading the central directory, opening entries and file-system errors other than a full medium; the archive is its entry metadata and the data each entry yields. `Path::components` is modelled for Unix paths.
- `CatalogSort.SortEntries`: the library's stable sort is modelled by an insertion sort on values, which is no restriction because a stable sort is unique (`StableSort.StableSortUnique`). Lower-casing of names is a parameter.
- Full-text matching is an uninterpreted predicate on the query text; SQL beyond the conditions built here, and the collation of plain equality, are left out.
- Finer interleavings of the task maps than whole calls and supervisor turns, the event channel, progress reports, the wrap-around of task ids and the three-second deadline itself, which may pass at any time during the drain.
- Database access, D-Bus, websockets, the user interface, playback queues, update fetching and media probing.
