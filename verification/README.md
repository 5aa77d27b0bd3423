# Verification model

A Dafny model of the parts of the trading service whose correctness is hardest to see from the
code, with proofs about all inputs and all runs. `dafny verify dfyconfig.toml` checks the whole
project (Dafny 4.11).

Two groups of code are modelled.

**Byte and text codecs of the front end's Buffer bundle** (`frontend/public/buffer-global.js`).
`Utf8` and `Base64` hold reference definitions taken from RFC 3629, RFC 2781 and RFC 4648;
`Utf8Codec` and `Base64Codec` hold the bundle's loops, proved against them; `Base64Laws` holds the
laws. `IntCodec` is the integer reader and writer, `IndexOf` the substring search. `Placeholders`
is the SQL placeholder rewriter of the database layer.

**Protocols and stateful guards of the service.** Each is a state machine: a datatype for the
state, a step function, runs over arbitrary event sequences, and a class with the source's fields
whose methods move from one state to the step function's next one. The clock is part of each
event, and a run is required to be clocked (non-decreasing) only where a theorem needs it. Outcomes of I/O
(requests, database statements, failures) are part of the events too, so every theorem covers all
of them. `WalletProvisioning` lets any number of callers interleave between their awaits;
`FundingLock` and `Scanner` interleave the steps of operations with everything around them;
`Signing`, `SigningMetrics`, `RateLimit`, `Outage` and `Proximity` show that compact state agrees
with the full log; `PauseControl`, `UserRisk` and `Migrations` follow their tables and flags.
`Windows` and `Common` hold shared helpers.

Where the code and its own documentation or intent differ, the model follows the code:

- `bot/venues/server_wallets.py:139-141` says partial state is stored when a call fails. The
  update is part of the transaction that the failure rolls back, so the created wallet is lost
  (`WalletProvisioning.AbortOrphans`, `WalletProvisioning.BoundIsReached`).
- The UTF-8 writer drops the second of two lead surrogates at the very end of a string instead of
  replacing it (`Utf8Codec.ReplacementExact`).
- The Base64 decoder keeps zero bytes, or fails with a negative length, when `=` follows whole
  quads (`Base64Laws.LengthExact`); `base64clean` never lets such a string through.
- `?0` becomes `$10`, another parameter (`Placeholders.BindsInOrder`).
- `resume` lifts the pause but resolves manual breakers only, and a newer breaker with a narrow
  scope replaces a wider scope still wanted by an older one (`PauseControl.HonouredExactly`).
- The scanner checks its cooldown on a row copied at the start of the cycle, and the monitor
  stamps that row in a statement of its own after the close is committed
  (`Scanner.CooldownExactly`, `Scanner.LateStampBreaksCooldown`); a stamp that fails or finds no
  strategy row is lost (`Scanner.EarlyOpenMeansNoStamp`, `Scanner.CloseWithoutRowIsForgotten`).
- The comment at `bot/core/user_risk_manager.py:55` says the first check initialises the peak; an
  existing row with peak 0 is left as it is, whether a counter created it, the account was empty
  at its first check, or a withdrawal emptied it (`UserRisk.PeakIsSetExactly`).
- The funding lock is deleted without looking at its value (`FundingLock.OverrunCascades`).
- A migration file added below the current version is skipped by upgrades and still reverted by
  downgrades (`Migrations.LateFileIsOnlyReverted`).

## Model

The results and the codec loops come first, component by component; the single steps of the
classes, which the results are about through their step functions, follow at the end.

| member | source | states |
|---|---|---|
| Utf8.DecodeEncode | frontend/public/buffer-global.js:899-958 | decoding the encoding of any characters gives them back; the decoder meant is the reference reading of section 3 of RFC 3629 |
| Utf8.EncodeDecode | frontend/public/buffer-global.js:899-958 | for any bytes at all, re-encoding what was decoded gives the same bytes if and only if they are well-formed (section 4 of RFC 3629) |
| Utf8.DecodeExactly | frontend/public/buffer-global.js:899-958 | decoding in terms of encoding alone: a character whose encoding is at the front is read and skipped; where there is none, one byte is skipped and U+FFFD read |
| Utf8Codec.Utf8ToBytes | frontend/public/buffer-global.js:1666-1725 | for every string of UTF-16 code units and every byte budget, the writer's loop with its pending lead surrogate emits, without a limit, exactly the encodings of the characters, with U+FFFD for unpaired surrogates, and under a budget at most that many bytes: the encodings of a first part of those characters such that any longer part would need more; a budget of 0 means no limit; a lead surrogate still pending after another one at the very end is dropped |
| Utf8Codec.BudgetIsFilled | frontend/public/buffer-global.js:1699-1721 | the specification the writer is proved against fills its budget: whole characters only, at most `units` bytes, and every longer first part of the text encodes to more |
| Utf8.LossyIsPointwise | frontend/public/buffer-global.js:1671-1697 | unit by unit, the text written is the text given with each unpaired surrogate replaced by U+FFFD and every other unit kept |
| Utf8.ExamplesOfRfc3629 | frontend/public/buffer-global.js:1701-1721 | the reference encoding gives the examples of section 7 of RFC 3629 |
| Utf8Codec.Utf8Slice | frontend/public/buffer-global.js:899-958 | the reader terminates on any bytes and any range and returns the UTF-16 form of the reference decoding, one U+FFFD for each byte that starts no character |
| Utf8Codec.DecodeCodePointsArray | frontend/public/buffer-global.js:959-975 | building the string in pieces of 4096 units gives the same string as building it at once |
| Utf8Codec.StringRoundTrip | frontend/public/buffer-global.js:1666-1725 | writing a string and reading it back returns it if and only if it has no unpaired surrogate (section 2 of RFC 2781) |
| Utf8Codec.ReadIsWellFormed | frontend/public/buffer-global.js:899-958 | whatever the bytes, the text read has no unpaired surrogate |
| Utf8Codec.BytesRoundTrip | frontend/public/buffer-global.js:899-958 | reading bytes and writing the text back returns the bytes if and only if they are well-formed UTF-8 |
| Utf8Codec.ReplacementExact | frontend/public/buffer-global.js:1666-1725 | the writer agrees with the standard replacement of unpaired surrogates if and only if the string does not end in two lead surrogates |
| Utf8Codec.FitIsLongestPrefix | frontend/public/buffer-global.js:1666-1725 | what is written under a budget is the longest prefix of whole characters that fits it |
| Base64Codec.FromByteArray | frontend/public/buffer-global.js:84-105 | the encoder that works in chunks of 16383 bytes and handles the remainder apart returns the one-pass encoding of section 4 of RFC 4648, for every length |
| Base64Codec.EncodeChunk | frontend/public/buffer-global.js:75-83 | one chunk is the encoding of its whole triplets |
| Base64Codec.GetLens | frontend/public/buffer-global.js:27-36 | the valid length is the position of the first `=`, the placeholder count follows from it, and a length that is not a multiple of four is an error |
| Base64Codec.ToByteArray | frontend/public/buffer-global.js:46-71 | the decoder's array is exactly the reference decoding of the characters before the padding; it keeps two zero bytes when `=` follows whole quads and fails with a negative array length when there is nothing before them |
| Base64Laws.DecodeEncode | frontend/public/buffer-global.js:46-105 | decoding undoes encoding for every byte sequence |
| Base64Laws.EncodeDecode | frontend/public/buffer-global.js:46-105 | encoding undoes decoding if and only if the string is canonical: standard alphabet, right padding, zero trailing bits |
| Base64Laws.LengthExact | frontend/public/buffer-global.js:37-51 | the bytes decoded number what the length formula allocates if and only if the placeholder count is not four |
| Base64Laws.Base64Clean | frontend/public/buffer-global.js:1656-1665 | the five statements compute the function of which the next laws speak: cleaning keeps the characters of both alphabets before the first `=` and pads them to whole quads, or returns the empty string for fewer than two |
| Base64Laws.CleanIgnoresNoise | frontend/public/buffer-global.js:1654-1661 | a character that is no letter, no digit and none of `+ / - _ =` can stand anywhere in a string without changing what cleaning makes of it, and neither does anything from the first `=` on |
| Base64Laws.CleanFillsQuads | frontend/public/buffer-global.js:1659-1664 | a string without such characters is cleaned to nothing if it is shorter than two, and otherwise kept and filled with the fewest `=` that make whole quads |
| Base64Laws.UrlSafeRoundTrip | frontend/public/buffer-global.js:1656-1665 | the whole path of cleaning and decoding gives back every byte sequence from its URL-safe form (section 5 of RFC 4648), padded and unpadded |
| Base64Laws.CleanEncoding | frontend/public/buffer-global.js:1656-1665 | cleaning leaves every encoding unchanged, so the round trip also holds through it |
| Base64Laws.CleanedAlwaysDecodes | frontend/public/buffer-global.js:1746-1748 | a cleaned string never makes the decoder fail, whatever it was before |
| Base64Laws.Base64ToBytes | frontend/public/buffer-global.js:1746-1748 | clean and then decode fails for no string, and returns the decoding of the cleaned string |
| Base64Laws.UrlSafeDecodes | frontend/public/buffer-global.js:16-26 | the URL-safe alphabet of section 5 of RFC 4648 decodes to the same bytes |
| Base64.ExamplesOfRfc4648 | frontend/public/buffer-global.js:84-105 | the reference encoding gives the test vectors of section 10 of RFC 4648 |
| IntCodec.WriteIntLE | frontend/public/buffer-global.js:1333-1351 | after the borrow loop the bytes at the offset hold the value modulo 256^n and no other byte changed; out-of-range values and offsets are errors that write nothing |
| IntCodec.WriteIntBE | frontend/public/buffer-global.js:1352-1370 | the same, most significant byte first |
| IntCodec.WriteUintLE | frontend/public/buffer-global.js:1212-1227 | the loop leaves bytes that denote the value itself and changes no other byte; the same errors write nothing |
| IntCodec.WriteUintBE | frontend/public/buffer-global.js:1228-1243 | the same, most significant byte first |
| IntCodec.BorrowStep | frontend/public/buffer-global.js:1341-1347 | `sub` is 1 exactly when the value is negative and the bytes below are not all zero; one loop turn keeps this |
| IntCodec.Low8OfQuotient | frontend/public/buffer-global.js:1345-1346 | truncated division, 32-bit conversion, borrow and mask together give the floored base-256 digit, although the quotient may not fit 32 bits |
| IntCodec.ReadUintLE | frontend/public/buffer-global.js:1034-1045 | the loop returns the little-endian value of the bytes, or a range error |
| IntCodec.ReadUintBE | frontend/public/buffer-global.js:1046-1057 | the same, most significant byte first |
| IntCodec.ReadIntLE | frontend/public/buffer-global.js:1108-1121 | the signed value of the bytes in two's complement |
| IntCodec.ReadIntBE | frontend/public/buffer-global.js:1122-1135 | the same, most significant byte first |
| IntCodec.WriteThenReadLE | frontend/public/buffer-global.js:1333-1351 | writing a value at an offset and reading it back there returns it, for every value and width; what does not fit is refused with the source's errors and nothing is written |
| IntCodec.WriteThenReadBE | frontend/public/buffer-global.js:1352-1370 | the same, most significant byte first |
| IntCodec.RoundTripLE | frontend/public/buffer-global.js:1108-1121 | any bytes that hold a value of [-2^(8n-1), 2^(8n-1)) modulo 256^n read back as that value |
| IntCodec.RoundTripBE | frontend/public/buffer-global.js:1122-1135 | the same, most significant byte first |
| IntCodec.BytesRoundTripLE | frontend/public/buffer-global.js:1333-1351 | reading any n bytes and writing the result back gives the same bytes |
| IntCodec.BytesRoundTripBE | frontend/public/buffer-global.js:1352-1370 | the same, most significant byte first |
| IntCodec.InjectiveLE | frontend/public/buffer-global.js:1034-1045 | two different byte sequences of one length never read as the same number |
| IntCodec.BigEndianIsReversed | frontend/public/buffer-global.js:1046-1057 | the big-endian value is the little-endian value of the reversed bytes |
| IntCodec.ByteOrder | frontend/public/buffer-global.js:1046-1057 | in two bytes the little-endian value weighs the second by 256, the big-endian one the first |
| IntCodec.ReadsAreWritable | frontend/public/buffer-global.js:1034-1057 | every unsigned number that can be read can be written, in either order |
| IndexOf.SearchForward | frontend/public/buffer-global.js:737-767 | for a non-empty pattern the result is the first occurrence at or after the offset, or -1 when there is none, and the loop terminates although its index jumps back; the empty pattern gives -1 |
| IndexOf.SearchBackward | frontend/public/buffer-global.js:768-786 | the result is the last occurrence at or before the offset, or -1 |
| IndexOf.BidirectionalIndexOf | frontend/public/buffer-global.js:694-735 | offsets are clamped to 32 bits and counted from the end when negative; the answer is then the first occurrence from there on, or the last one up to there |
| IndexOf.AnswerIsUnique | frontend/public/buffer-global.js:737-786 | each of the two specifications allows one answer only |
| Placeholders.ConvertPlaceholders | shared/db/database.py:59-83 | the nested loops compute what a two-state lexer computes, for every string, terminated quotes or not; the next laws say what that is without the lexer |
| Placeholders.QuotationIsCopied | shared/db/database.py:70-79 | text between two single quotes or two double quotes is copied, whatever else it holds, and rewriting goes on behind it; a quotation that never ends is copied to the end |
| Placeholders.PlainIsCopied | shared/db/database.py:66-82 | outside quotations every character but `?` is copied, and the first `?` becomes `$1` |
| Placeholders.PositionWise | shared/db/database.py:59-83 | the k-th unquoted `?` becomes `$k` and every other character, quoted ones included, is copied, position by position |
| Placeholders.NothingLeft | shared/db/database.py:59-83 | the output has no unquoted `?` and ends in the quoting state of the input |
| Placeholders.UnchangedExactly | shared/db/database.py:59-83 | a query is left alone if and only if it has no unquoted `?` |
| Placeholders.Idempotent | shared/db/database.py:54-58 | rewriting twice is rewriting once, for every string |
| Placeholders.BindsInOrder | shared/db/database.py:59-83 | a query written with `?` only binds parameters 1, 2, ... in order if and only if no placeholder is directly followed by a digit |
| Placeholders.NamesAreDistinct | shared/db/database.py:67-69 | different placeholders get different names |
| WalletProvisioning.InvariantOnRun | bot/venues/server_wallets.py:123-219 | in every interleaving of any number of callers, every wallet created for a chain is committed, abandoned by an abort or held by the lock's owner |
| WalletProvisioning.CreationBound | bot/venues/server_wallets.py:123-219 | per chain, at most one wallet is created more than there were aborted calls, and none more when one was stored before |
| WalletProvisioning.BoundIsReached | bot/venues/server_wallets.py:142-219 | that bound is reached on both chains at once, for every number of aborts |
| WalletProvisioning.OnePair | bot/venues/server_wallets.py:123-219 | all completing callers return the one committed pair; without aborts exactly one wallet was created for each chain that had none |
| WalletProvisioning.MutualExclusion | bot/venues/server_wallets.py:154-158 | at most one caller is between taking the lock and the end of its transaction |
| WalletProvisioning.NeverHalfStored | bot/venues/server_wallets.py:151-219 | no run stores one new wallet alone: the columns are as before the run or both filled |
| WalletProvisioning.StoredIsKept | bot/venues/server_wallets.py:187-201 | a wallet stored before the run is still the stored one after it, and none is created for its chain |
| WalletProvisioning.UnknownUserGetsNothing | bot/venues/server_wallets.py:160-171 | for a user that does not exist no caller creates, stores or completes anything |
| WalletProvisioning.FastPathNeedsNoLock | bot/venues/server_wallets.py:123-150 | once the pair is committed the unlocked check hands it to a new caller, also while another caller holds the lock, and touches nothing else |
| WalletProvisioning.EvmComesFirst | bot/venues/server_wallets.py:187-201 | in every interleaving no Solana wallet is created before the user has an EVM wallet, stored or created |
| WalletProvisioning.AbortOrphans | bot/venues/server_wallets.py:139-141 | an abort rolls the columns back and its created wallets are lost to later calls, against the docstring's promise that partial state is stored |
| WalletProvisioning.OrphansOnlyByAbort | bot/venues/server_wallets.py:151-219 | nothing but an abort abandons a wallet of either chain |
| WalletProvisioning.LoneCallerCompletes | bot/venues/server_wallets.py:123-219 | after any history, a new caller that finds the lock free and is not aborted ends with both wallets |
| Signing.BreakerMatchesLog | bot/venues/privy_signer.py:156-202 | on every run of calls and health reads, failure counter and trip time are those of the log's current streak of failures since the last success or observed expiry, and the breaker is tripped if and only if the counter has reached 5 |
| Signing.RejectedExactly | bot/venues/privy_signer.py:174-186 | a call is turned away without any request if and only if five failures stand in a row and the fifth is less than 60 s old |
| Signing.SilentWhileCoolingDown | bot/venues/privy_signer.py:296-316 | no request to the signing service starts between a trip and 60 s later |
| Signing.CounterCountsCalls | bot/venues/privy_signer.py:318-365 | the failure counter is the number of distinct calls whose last attempt met an error that is no policy denial, with no answered call or observed expiry after them, one each whatever their attempts, and one event raises it by one at the most |
| Signing.CallExactly | bot/venues/privy_signer.py:296-365 | on every run, told by the outcomes of a call's attempts alone: turned away, it issues nothing and changes nothing; otherwise it issues one to three requests, all but the last of them met by a transient error, and the last one decides: an answer closes the breaker, a policy denial leaves what the check left, any other error counts one and trips at the fifth; the recorded kind is that of the last outcome |
| Signing.TripTakesFiveCalls | bot/venues/privy_signer.py:194-202 | a trip takes five distinct failed calls with nothing clearing in between; the last of them is the one that trips, at its own failure time |
| Signing.Made | bot/venues/privy_signer.py:319-352 | at most three attempts; all but the last ended in a transient error that is no policy denial, and the last did not unless it was the third |
| Signing.SummaryCountsCalls | bot/venues/privy_signer.py:260-294 | over any run of calls and health reads, a read with a window within the retention window answers, for each verdict, the number of calls of the run that ended so and were logged within the window |
| SigningMetrics.SummaryAgreesWithLog | bot/venues/privy_signer.py:63-76 | for any window within the retention window, the counts over the front-pruned deque equal those over everything ever recorded, in whatever order the timestamps came |
| SigningMetrics.SummaryIsCapped | bot/venues/privy_signer.py:63-76 | for any window at all and events in time order, the counts are those of the log from the later of the asked start and the retention limit |
| SigningMetrics.CountIsCardinality | bot/venues/privy_signer.py:68-76 | a count is the number of events with that result at or after the cutoff |
| RateLimit.WindowBound | backend/dashboard/api/auth.py:93-119 | in every run and for every key, no half-open window of 900 s, closed below or above, holds more than 5 recorded attempts |
| RateLimit.FiveApart | backend/dashboard/api/auth.py:99-108 | in every run, any attempt of a key comes at least 900 s after the fifth before it |
| RateLimit.ClosedWindowExactly | backend/dashboard/api/auth.py:99-108 | a closed window of 900 s holds more than 5 attempts of a key if and only if one lies on its start and the fifth after that on its very end; it never holds more than 10 |
| RateLimit.ClosedWindowHoldsTen | backend/dashboard/api/auth.py:99-108 | 10 is reached: five attempts at one moment and five exactly 900 s later |
| RateLimit.AllowedExactly | backend/dashboard/api/auth.py:93-110 | although the stored list is pruned, a request passes if and only if the full log has fewer than 5 attempts of its key in the 900 s before the check |
| RateLimit.StoredAgrees | backend/dashboard/api/auth.py:100-105 | from the latest check's window on, the stored list and the log hold the same attempts |
| RateLimit.StoredIsRecentLog | backend/dashboard/api/auth.py:100-118 | after a request the stored list of its key is exactly the attempts of the log from the 900 s before the check on, the new one included |
| RateLimit.KeysIndependent | backend/dashboard/api/auth.py:103-119 | every key is limited as if the others made no requests |
| Windows.RecentTwice | backend/dashboard/api/auth.py:104-105 | pruning with an earlier and then a later start is pruning with the later one |
| FundingLock.PromptRunsAreSafe | backend/dashboard/api/funding.py:96-122 | if no operation is still in progress 600 s after it was granted, then in every interleaving each user has at most one operation in progress at every moment and no delete removes a lock that another operation placed |
| FundingLock.ExclusiveExactly | backend/dashboard/api/funding.py:96-122 | a run keeps one operation per user if and only if no request arrives while an operation of that user has outlived its lock |
| FundingLock.GrantedExactly | backend/dashboard/api/funding.py:98-104 | while that holds, a request is granted beside an operation in progress if and only if that operation is past its 600 s |
| FundingLock.GrantLasts | backend/dashboard/api/funding.py:96-104 | from any state, a granted request becomes one new operation without a row and shuts its user out for exactly 600 s while nothing ends; other users do not notice |
| FundingLock.EndFreesUser | backend/dashboard/api/funding.py:106-122 | from any state, a failed insert of the row or the end of the job takes away that operation and no other; if its delete went through the user's next request is granted at any time, if not exactly as before; other users do not notice |
| FundingLock.OverrunCascades | backend/dashboard/api/funding.py:453-458 | after one overrun the late unconditional delete removes the next lock, and a third operation starts beside a second one that is on time |
| PauseControl.PausedExactly | bot/core/pause_controller.py:180-273 | on every run operations are paused if and only if some breaker is active and nobody resumed since the newest one; the scope in force is then the newest breaker's |
| PauseControl.RecoveryExactly | bot/core/pause_controller.py:438-454 | recovery settles exactly the active breakers of kinds that have one due, leaves none due, and the controller stays paused if and only if it was and some breaker is active |
| PauseControl.ResolveExactly | bot/core/pause_controller.py:399-436 | on any run, resolving a kind settles every active breaker of it and no other, and the controller stays paused, with the same scope, if and only if it was and some breaker is active |
| PauseControl.ResumeExactly | bot/core/pause_controller.py:232-273 | a resume lifts the pause, settles the active manual breakers by hand and leaves every other breaker as it was; with a wrong key neither pause nor resume changes anything |
| PauseControl.NewBreakerIsDue | bot/core/pause_controller.py:356-363 | a triggered breaker is due for recovery if and only if it has auto-recovery and its cooldown has passed: a given one above 0, or 1800 s for a price deviation, and never for any other kind without one |
| PauseControl.DueKinds | bot/core/pause_controller.py:438-454 | the kinds reported as recovered are distinct and are exactly those with a due breaker |
| PauseControl.NewestScopeOverrides | bot/core/pause_controller.py:380-384 | a new breaker keeps every active one honoured if and only if its scope is `all` or equals the scope of each |
| PauseControl.HonouredExactly | bot/core/pause_controller.py:312-333 | on any run, nothing an active breaker should block can execute if and only if none is active, or nobody resumed and the newest scope covers every active one |
| PauseControl.GatesAgree | bot/core/pause_controller.py:275-333 | `can_execute` and `check_paused` agree on every operation and state |
| PauseControl.BlockedAfterPause | bot/core/pause_controller.py:312-333 | after a pause or trigger entries, exits and each venue are held by `all` and by their own scope only, and unknown work by `all` only |
| Outage.RecordMatchesLog | shared/chain/outage_detector.py:101-169 | on every run the record of a chain is the one recomputed from its full log of failures since the last success, windowed at the latest failure |
| Outage.OutExactly | shared/chain/outage_detector.py:130-146 | a chain is out if and only if its third-last failure since the last success is less than 15 s older than its last one; degraded if it failed at all since then; healthy otherwise |
| Outage.FailuresExactly | shared/chain/outage_detector.py:130-146 | the failure count shown is k or more if and only if the k-th last failure since the last success is less than 15 s older than the last one |
| Outage.AnnouncedExactly | shared/chain/outage_detector.py:110-169 | subscribers are told of a change of status and of nothing else, with the one silent change of a recovery from `degraded` |
| Outage.OutageIsHeardExactly | shared/chain/outage_detector.py:117-120 | whenever a callback was registered, it last heard `outage` if and only if the chain is out and has not been out ever since the registration; of an outage going on then it hears nothing until it ends |
| Outage.HeardExactly | shared/chain/outage_detector.py:117-167 | a subscriber from the start last heard the current status except after a recovery from `degraded`, which is silent |
| Proximity.TrackerMatchesReadings | bot/core/risk_engine.py:560-573 | for every key the stored start is the time of the first reading of its current unbroken run of near readings, and there is none without a run |
| Proximity.TriggeredExactly | bot/core/risk_engine.py:249-253 | a check raises the alarm if and only if the run its reading belongs to began at least 20 s earlier |
| Proximity.KeysIndependent | bot/core/risk_engine.py:560-573 | a key's start is the one its own readings alone would give |
| Proximity.LevelsCoveredExactly | bot/core/risk_engine.py:227-239 | every reading at warning or worse counts as near, whatever its value, if and only if no level threshold exceeds 1.2 times the minimum and that is not negative |
| Proximity.LevelsExactly | bot/core/risk_engine.py:227-291 | any reading is critical at either lower health limit or at half the margin, otherwise a warning at the health minimum or the margin; it is near within six fifths of that threshold |
| Proximity.LowerIsWorse | bot/core/risk_engine.py:227-291 | a lower reading never gives a milder level, and is near if the higher one is |
| Proximity.SustainedWarningTriggers | bot/core/risk_engine.py:293-309 | under those settings a position read at warning or worse each time for 20 s raises the alarm, whatever is read for others meanwhile |
| Proximity.KeysAreDistinct | bot/core/risk_engine.py:241-243 | whatever the user ids, colons included, different users, venues or positions never share a key as long as positions have no colon |
| Proximity.ColonsCollide | bot/core/risk_engine.py:241-243 | with a colon in a position, any user can share a key with another one |
| UserRisk.BalancesStayOrdered | bot/core/user_risk_manager.py:44-122 | in every run of checks, deposits and withdrawals that start from the tracked balance, peak >= tracked balance >= 0 |
| UserRisk.WithdrawalKeepsOrderExactly | bot/core/user_risk_manager.py:104-122 | for a withdrawal from any other balance, that order survives if and only if the peak is at least the given balance or nothing is left |
| UserRisk.ChecksPauseExactly | bot/core/user_risk_manager.py:44-88 | a check pauses the user if and only if the peak is positive and the balance is at most four fifths of it |
| UserRisk.PausedExactly | bot/core/user_risk_manager.py:44-226 | on every run of a new user, trading is paused if and only if some check found a balance of at most four fifths of a positive peak, or some failure was at least the third in a row |
| UserRisk.CheckTracksBalance | bot/core/user_risk_manager.py:54-86 | a check tracks the balance and keeps the larger peak where there is one, creates a missing row at the balance, and leaves a row without a peak as it is |
| UserRisk.FlowsExactly | bot/core/user_risk_manager.py:90-122 | a deposit moves balance and peak by its amount; a withdrawal leaves the given balance and a peak in the same proportion to the old one; a withdrawal from nothing changes nothing |
| UserRisk.WithdrawalKeepsDrawdown | bot/core/user_risk_manager.py:104-122 | a withdrawal from the tracked balance leaves the drawdown percentage unchanged |
| UserRisk.DepositNeverRaisesDrawdown | bot/core/user_risk_manager.py:90-102 | a deposit never raises it |
| UserRisk.FlowsNeverPause | bot/core/user_risk_manager.py:90-122 | no sequence of deposits and withdrawals turns a passing drawdown check into a pause |
| UserRisk.PeakIsHighWaterMark | bot/core/user_risk_manager.py:61-76 | between cash flows the peak is the maximum of the balances seen |
| UserRisk.PeakIsSetExactly | bot/core/user_risk_manager.py:54-60 | from a new user on, for balances and amounts that are not negative, the peak is positive if and only if a check of a positive balance created the row, or a deposit came after its creation, and no withdrawal has taken everything since; the comment that the first check initialises the peak holds in no other case |
| UserRisk.FirstActionDecides | bot/core/user_risk_manager.py:54-60 | without deposits the action that creates the row decides: the peak is positive if and only if that was a check of a positive balance and no withdrawal has taken everything since |
| UserRisk.EmptyAccountHasNoPeak | bot/core/user_risk_manager.py:104-122 | two shortest runs: an account first checked while empty, and one emptied by a withdrawal, keep peak 0 under a later check of any balance |
| UserRisk.TradeFirstLeavesNoPeak | bot/core/user_risk_manager.py:156-165 | the shortest such run: one trade, then a check of any balance, and the peak is 0 and nobody is paused |
| UserRisk.DormantUntilDeposit | bot/core/user_risk_manager.py:54-60 | while the peak is 0 and no deposit comes, no check of any balance changes it or pauses the user |
| UserRisk.DailyCountMatchesLog | bot/core/user_risk_manager.py:128-176 | the stored daily count is the number of trades recorded that day |
| UserRisk.UnderLimitExactly | bot/core/user_risk_manager.py:128-154 | the daily check passes if and only if fewer than 20 trades were recorded that day |
| UserRisk.DailyCheckOpensDay | bot/core/user_risk_manager.py:128-154 | a daily check leaves an existing row on the checked day or a later one, with no trades when that day is new to it, and touches nothing else |
| UserRisk.FailuresMatchLog | bot/core/user_risk_manager.py:182-226 | the failure counter is the log's run of failures, and recording a failure pauses if and only if it is at least the third in a row |
| Scanner.UninterruptedScanIsSafe | bot/core/autonomous_scanner.py:167-241 | a scan no other event interrupts, begun while no close awaits its stamp, opens only for an enabled, unpaused user, leaves at most min(user limit, 3) positions, is at most the 20th open of the day, and comes at or after the end of the cooldown fixed for the last committed close unless that stamp was lost, whatever was edited since |
| Scanner.CooldownExactly | bot/core/autonomous_scanner.py:149-163 | for a cooldown of any length that outlasts the scan (counted from the copy of the row, or from a close before it that left no stamp in the copy): the open keeps the cooldown of the last committed close if and only if the stamp of that close precedes the copy of the row, that is, if it was committed before the copy and its stamp was neither awaited nor lost |
| Scanner.CopiedStampExactly | bot/core/position_monitor.py:415-450 | the copied row carries the stamp of the last close committed before it if and only if that stamp is neither awaited nor lost |
| Scanner.StampedCloseIsKept | bot/core/autonomous_scanner.py:300-325 | a close whose stamp is in the copied row is followed by no open of that scan before the cooldown's end, counted from the commit |
| Scanner.EarlyOpenMeansNoStamp | bot/core/position_monitor.py:440-450 | an open within the cooldown of the last close before its copy, of whatever length, shows that the stamp was awaited, had failed, or had found no strategy row |
| Scanner.CooldownFromTheCopiedRow | bot/core/autonomous_scanner.py:300-325 | no open comes before the end of the cooldown that its copied row carries |
| Scanner.RowKeepsLastStamp | bot/core/position_monitor.py:440-450 | the row's close time and cooldown are those of the last stamp that reached it, through all edits, pauses and resumes |
| Scanner.StampOwed | bot/core/position_monitor.py:415-450 | after a committed close its stamp is awaited, or written, or lost, and never two of these |
| Scanner.LateStampBreaksCooldown | bot/core/position_monitor.py:415-450 | a run in which the row is copied between commit and stamp and an open follows at once |
| Scanner.LateCloseBreaksCooldown | bot/core/autonomous_scanner.py:149-241 | a run in which a position closes after the copy and an open follows at once |
| Scanner.CloseWithoutRowIsForgotten | bot/core/position_monitor.py:440-450 | a run in which the stamp finds no strategy row and an open follows one second after the close |
| Scanner.GatesPassExactly | bot/core/autonomous_scanner.py:187-226 | each of the four gates lets the scan on if and only if, at its own step: at least five minutes, and the minutes saved when it was stamped, have passed since the last stamp before the copy; the account is not paused; the open positions are below the limit last saved before the copy and below 3; fewer than 20 autonomous opens were made that day |
| Scanner.ScanStartsExactly | bot/core/autonomous_scanner.py:149-163 | a free scanner picks the user up if and only if the last save, pause or resume left the strategy enabled and no pause, and no third or later failure in a row, stands without a resume after it |
| Scanner.PauseStopsScans | backend/dashboard/api/strategy.py:267-282 | between a user's pause, or a third failure in a row, and the copy of the row that an autonomous open rests on, the user has resumed |
| Scanner.DisabledStopsScans | backend/dashboard/api/strategy.py:141-232 | the copy that an open rests on was taken while the last save, pause or resume had left the strategy enabled |
| Scanner.AccountPauseStopsOpens | bot/core/autonomous_scanner.py:195-203 | between the start of an account pause and the account gate of an open, the account pause has ended |
| Scanner.SwitchesMatchLog | backend/dashboard/api/strategy.py:141-300 | on every run the failures in a row, the pause, the account pause, the switch and the saved settings are those of the log: the last save, pause, resume or account event, and the failures since the last open |
| Scanner.RowExistsExactly | backend/dashboard/api/strategy.py:267-300 | the user has a strategy row if and only if it was saved, resumed, paused, or stopped by a third failure in a row |
| Scanner.AtMostTwentyADay | bot/core/autonomous_scanner.py:220-226 | each autonomous open is at most the 20th of its day under every interleaving of the scan's steps with everything else |
| Scanner.PositionCapExactly | bot/core/autonomous_scanner.py:205-218 | after an open the positions are within min(limit in the copied row, 3) if and only if openings by others since the count, less closings, left room |
| Scanner.OthersBreakTheCap | bot/core/autonomous_scanner.py:205-218 | a run on the failing side: an opening by others after the count leaves more positions than the limit |
| Scanner.ScanLeavesTrail | bot/core/autonomous_scanner.py:167-241 | a scan in progress works on the row at its start, and passed each gate, in order, on the state of that gate's own step |
| Migrations.AppliedUpToCurrent | shared/db/migrations.py:100-161 | after any sequence of calls, also ones that stop part-way, the recorded versions are exactly those of the files up to the current version, and the scripts run leave the same versions in the schema |
| Migrations.MigrateKeeps | shared/db/migrations.py:100-132 | one call, whatever fails in it, leaves a prefix of the files applied; a completed one leaves the prefix that ends at its target |
| Migrations.CompletesExactly | shared/db/migrations.py:119-161 | after any calls, the next one completes if and only if no file on its way is blocked by a failing script or a missing down script; when one is, the call stands right before the first such file |
| Migrations.LatestAppliesAll | shared/db/migrations.py:108-117 | a completed call without a target applies every file, in order |
| Migrations.CompletedIsIdempotent | shared/db/migrations.py:113-124 | a completed call applies exactly the versions up to its target and repeating it does nothing |
| Migrations.ThereAndBack | shared/db/migrations.py:119-131 | migrating anywhere and back, both completed, restores the table |
| Migrations.AddedFileFitsExactly | shared/db/migrations.py:119-122 | a file added later keeps table and files in step if and only if its version is above the current one |
| Migrations.LateFileIsOnlyReverted | shared/db/migrations.py:124-127 | a file added below the current version is reverted by a downgrade without ever having been applied |
| WalletProvisioning.ServerWalletService.GetUserWallets | bot/venues/server_wallets.py:99-121 | the unlocked check: the caller is done exactly when both columns are filled |
| WalletProvisioning.ServerWalletService.AcquireLock | bot/venues/server_wallets.py:151-158 | the advisory lock is granted only when nobody holds it |
| WalletProvisioning.ServerWalletService.RecheckUnderLock | bot/venues/server_wallets.py:160-184 | under the lock: unknown user fails, a complete row ends the call, otherwise the caller works on a copy of the row |
| WalletProvisioning.ServerWalletService.CreateWallet | bot/venues/server_wallets.py:187-201 | creates the EVM wallet first, the Solana one second, and only what the copy lacks |
| WalletProvisioning.ServerWalletService.AttachPolicyAndUpdate | bot/venues/server_wallets.py:191-215 | a created wallet enters the copy and the uncommitted row |
| WalletProvisioning.ServerWalletService.CommitTransaction | bot/venues/server_wallets.py:216-219 | both columns become visible together and the lock is released |
| WalletProvisioning.ServerWalletService.RollBack | bot/venues/server_wallets.py:151-219 | the columns stay as committed, the lock is released, what was created is orphaned |
| Signing.PrivyWalletSigner.CallRpc | bot/venues/privy_signer.py:296-365 | the retry loop issues those attempts with back-off 1 s and 2 s, moves the breaker by the step that `Signing.CallExactly` spells out, adds exactly one metrics event with the verdict it returns, and never reaches the code after the loop |
| Signing.SigningCircuitBreaker.IsOpen | bot/venues/privy_signer.py:174-186 | reading the breaker answers whether it cools down and resets an expired one |
| Signing.SigningCircuitBreaker.RecordSuccess | bot/venues/privy_signer.py:188-192 | a success closes the breaker |
| Signing.SigningCircuitBreaker.RecordFailure | bot/venues/privy_signer.py:194-202 | a failure counts one and trips an untripped breaker at the threshold |
| SigningMetrics.Metrics.PruneOld | bot/venues/privy_signer.py:63-66 | the front-pruning loop removes the longest prefix of old events |
| SigningMetrics.Metrics.GetSummary | bot/venues/privy_signer.py:68-76 | prunes, then counts by result; an absent or zero window means the whole retention window |
| SigningMetrics.Metrics.Record | bot/venues/privy_signer.py:55-61 | appends one event |
| RateLimit.OtpAttempts.CheckRateLimit | backend/dashboard/api/auth.py:93-110 | prunes the key's list and answers from it, with the remaining attempts |
| RateLimit.OtpAttempts.RecordAttempt | backend/dashboard/api/auth.py:113-118 | appends one time to the key's list |
| RateLimit.OtpAttempts.CheckThenRecord | backend/dashboard/api/auth.py:142-153 | both endpoints' use: a refused request records nothing |
| FundingLock.FundingService.Submit | backend/dashboard/api/funding.py:174-183 | `SET NX EX 600`: granted if and only if the user's entry is absent or expired |
| FundingLock.FundingService.CreateRow | backend/dashboard/api/funding.py:106-116 | a failed insert deletes the lock and ends the operation |
| FundingLock.FundingService.FinishJob | backend/dashboard/api/funding.py:509-514 | the job's end deletes the user's lock, whoever holds it, and ignores a failing delete |
| PauseControl.PauseController.Pause | bot/core/pause_controller.py:180-230 | adds a manual breaker and pauses with its scope; a wrong key changes nothing |
| PauseControl.PauseController.Resume | bot/core/pause_controller.py:232-273 | unpauses and resolves manual breakers only; a wrong key changes nothing |
| PauseControl.PauseController.CheckPaused | bot/core/pause_controller.py:275-295 | whether the pause covers the asked scope |
| PauseControl.PauseController.CanExecute | bot/core/pause_controller.py:312-333 | whether the scope in force leaves the operation free |
| PauseControl.PauseController.TriggerCircuitBreaker | bot/core/pause_controller.py:335-397 | adds a breaker with its recovery time, present only with auto-recovery and a positive cooldown, and pauses with its scope |
| PauseControl.PauseController.ResolveCircuitBreaker | bot/core/pause_controller.py:399-436 | resolves all active breakers of the kind and lifts the pause when none is left |
| PauseControl.PauseController.CheckAndRecover | bot/core/pause_controller.py:438-454 | the loop that resolves by kind while it walks the list equals settling all due kinds at once |
| Outage.OutageDetector.RecordSuccess | shared/chain/outage_detector.py:101-122 | clears the chain's failures and notifies only after an outage; other chains are untouched |
| Outage.OutageDetector.RecordFailure | shared/chain/outage_detector.py:124-169 | appends, prunes, sets the status from the count and notifies on a change; other chains are untouched |
| Outage.OutageDetector.NotifyCallbacks | shared/chain/outage_detector.py:63-69 | every registered callback gets the note once |
| Proximity.RiskEngine.UpdateProximityTracking | bot/core/risk_engine.py:560-573 | keeps the first time of a run, forgets it at the first reading that is not near |
| Proximity.RiskEngine.CheckAsgardHealth | bot/core/risk_engine.py:205-262 | level, distance and alarm of a health-factor reading |
| Proximity.RiskEngine.CheckHyperliquidMargin | bot/core/risk_engine.py:264-318 | level, distance and alarm of a margin-fraction reading |
| UserRisk.UserRiskManager.CheckBalance | bot/core/user_risk_manager.py:44-88 | updates balance and peak and answers whether the drawdown stays under 20% |
| UserRisk.UserRiskManager.UpdatePeakOnDeposit | bot/core/user_risk_manager.py:90-102 | adds the amount to peak and balance of an existing row |
| UserRisk.UserRiskManager.UpdatePeakOnWithdrawal | bot/core/user_risk_manager.py:104-122 | scales the peak by the ratio of the balances |
| UserRisk.UserRiskManager.CheckDailyTradeLimit | bot/core/user_risk_manager.py:128-154 | starts a new day's count and answers whether it is under 20 |
| UserRisk.UserRiskManager.RecordOneTrade | bot/core/user_risk_manager.py:156-176 | counts a trade of the day and clears the failures |
| UserRisk.UserRiskManager.RecordOneFailure | bot/core/user_risk_manager.py:182-212 | counts a failure and pauses at the third |
| UserRisk.UserRiskManager.RecordOneSuccess | bot/core/user_risk_manager.py:214-222 | clears the failures |
| UserRisk.UserRiskManager.UpsertRiskRow | bot/core/user_risk_manager.py:253-270 | inserts a missing row and leaves an existing one alone |
| Scanner.TradingLoop.PickUser | bot/core/autonomous_scanner.py:149-163 | copies the row of an enabled, unpaused user |
| Scanner.TradingLoop.HasCooldownElapsed | bot/core/autonomous_scanner.py:300-325 | compares the time since the close with the cooldown fixed at it, at least five minutes |
| Scanner.TradingLoop.CheckNext | bot/core/autonomous_scanner.py:187-226 | one gate, judged on the tables as they are then; the scan may wait between gates |
| Scanner.TradingLoop.OpenPosition | bot/core/autonomous_scanner.py:413-467 | records the position and the trade, or the failure |
| Scanner.TradingLoop.ExecuteExit | bot/core/position_monitor.py:415-438 | the transaction that closes a position, or the recorded failure |
| Scanner.TradingLoop.StampCooldown | bot/core/position_monitor.py:440-450 | the separate statement after it that stamps close time and current cooldown, whose failure is ignored |
| Scanner.TradingLoop.UpdateStrategy | backend/dashboard/api/strategy.py:141-232 | saving settings never touches the close stamp |
| Scanner.TradingLoop.Pause | backend/dashboard/api/strategy.py:267-282 | disables and pauses; what that stops is `Scanner.PauseStopsScans` |
| Scanner.TradingLoop.Resume | backend/dashboard/api/strategy.py:285-300 | enables and unpauses, and keeps the counters |
| Migrations.SchemaMigrator.Migrate | shared/db/migrations.py:100-132 | both loops, with stops at the first failing script |
| Migrations.SchemaMigrator.ApplyMigration | shared/db/migrations.py:134-145 | script and row together or neither; a version already recorded fails |
| Migrations.SchemaMigrator.RevertMigration | shared/db/migrations.py:147-161 | needs a down script; script and row removal together or neither |

## Left out

- I/O itself: HTTP, RPC, the wallet provider, Redis, PostgreSQL and the clock appear as event outcomes, a map with deadlines, tables with atomic statements and readings; React code, logging and settings are not modelled.
- `buffer-global.js`: `ieee754` (floating point), fixed-width and BigInt forms, `byteLength` 0, `noAssert` set, byte lengths above 6 whose values JavaScript numbers do not hold exactly, and typed-array and error-class setup.
- IndexOf.BidirectionalIndexOf: byte elements and a buffer pattern only; the two-byte encodings (where the backward form returns an element index, not a byte index), string and number patterns and a missing offset are not modelled.
- Base64Laws.Base64Clean: `trim` is modelled by the ECMAScript list of white-space code units, since the engine's `trim` is not part of the bundle.
- WalletProvisioning: the 32-bit hash of the user id used as lock key; users whose ids collide would only wait for each other.
- Signing: requests of one process are taken one after another, as the synchronous client makes them; the keyword lists that classify errors are outcomes of an attempt, and the wallet id is taken to be set.
- SigningMetrics: method and wallet id of an event, which no count uses.
- RateLimit: keys are compared as they are built; lower-casing of the e-mail is not modelled, nor are several worker processes, each of which has its own dictionary.
- FundingLock: amounts and job status texts; the uuid of a job is a serial number, which stands for uniqueness.
- PauseControl: reasons, texts, resolution times and the callbacks, which are taken not to call the controller back; per-user pauses.
- Outage: latency, error texts and the monitoring loop.
- Proximity: `reset_proximity_tracking`, which removes keys by substring, and the fallback to stored position fields when no reading (or a reading of 0) is passed.
- UserRisk: money is `real`, so rounding of floats and of the database type is not modelled; the statements of one manager call are one step.
- Scanner: entry criteria and position sizing are one outcome of a step; one scanner process, as its advisory lock is taken by a statement of its own and guards nothing after it; other database writes than the close stamp are taken to succeed, and the monitor closes one position of a user at a time, as its loop does.
- Scanner.TradingLoop.OpenPosition: the insert of the position and the counting of the trade are one step; no gate of a scan runs between them.
- Scanner.PositionCapExactly: whether both legs of a position are open or closed is not modelled, only the rows that are counted.
- Migrations: file names and their parsing, checksums, and versions that are not distinct and positive.
- Validators, LST classification, lifecycle tables, encryption and the venue clients.
