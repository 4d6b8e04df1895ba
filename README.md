# redisimp copy engine, modelled in Dafny

redisimp copies keys from one Redis server to another with DUMP, PTTL and
RESTORE. This project models its copy engine (`redisimp/api.py`):

- **Key scanning** (`read_keys`). It walks SCAN's cursor until the cursor
  comes back as 0. A pattern is used in one of two ways:
  - a plain pattern goes to SCAN as its MATCH glob;
  - a pattern written `/.../` becomes a client-side regex filter.
- **Snapshot reading** (`read_data_and_pttl`). It sends one non-transactional
  DUMP/PTTL pipeline per batch. A key whose dump is empty is dropped; the
  model takes the dump of a key that vanished from the source to be empty
  (see "Left out"). A negative ttl is clamped to 0.
- **Version comparison** (`compare_version`). A version string loses its
  trailing `.0` segments, is split on dots and parsed to integers, and the
  resulting lists are compared lexicographically.
- **Restore handler** (`_supports_replace`, `_replace_restore`,
  `_delete_restore`, `_get_restore_handler`). A server of version 3.0.0 or
  later gets `RESTORE … REPLACE`. An older server, or one that reports no
  version, gets `DEL` followed by a plain `RESTORE`.
- **Clobber copy** (`clobber_copy`). Every batch is read, its restores are
  queued, and the batch's keys are yielded. The pipeline is then executed,
  and an error reply raises.
- **Backfill copy** (`backfill_copy`). An EXISTS pipeline picks the keys the
  destination lacks. Those keys are read and restored without REPLACE.
  Result `i` of the restore pipeline is taken to stand for the `i`-th
  missing key: on a success that key is yielded, an error whose text
  contains `is busy` is skipped, and any other error raises. A missing key
  that vanished from the source has no restore, so from then on results and
  keys are out of step (see "Findings").
- **The entry point** `copy`, which dispatches on `backfill`.

**Servers.** The source is a read-only `Store`: a map from key to payload
and ttl. The destination is the class `Server.Destination`. It has:

- a store that `Execute` changes one pipeline at a time;
- a ghost log of the pipelines it executed;
- the version its INFO reports;
- a `Behaviour`: the payloads it rejects as corrupt, and the text of its
  busy-key error.

`Server.Apply` gives each command the semantics of Redis:

- PTTL answers -2 for a missing key and -1 for a key without expiry;
- RESTORE refuses a negative ttl;
- RESTORE without REPLACE refuses an existing key;
- a ttl of 0 means no expiry.

**Generators.** A generator's whole run is a `Passes.Pass`: the keys it
yielded, the error it raised (if any), the destination store afterwards and
the pipelines it sent. `Passes.Drive` is the batch loop shared by both copy
modes. It stops after the first batch that raises.

**Imperative parts.** The loops of the source are methods, each proved equal
to the pure function it implements:

- the SCAN loop;
- the DUMP/PTTL queueing loop, and the reply loop, proved to compute
  `ValidSnapshots` key by key;
- the restore-queueing loops;
- the backfill result loop;
- the per-batch loops.

The destination's pipelines go through `Destination.Execute`.

**Two behaviours of the code worth knowing.**

- An unparseable `redis_version` makes `int()` raise inside
  `compare_version`, and the code has no fallback: choosing the handler
  raises, and so does `clobber_copy`, before it scans anything.
- `clobber_copy` yields each key of a batch before that batch's pipeline is
  executed. So a batch whose pipeline raises has already yielded keys that
  were not written.

## Model

| member | source | states |
|---|---|---|
| Scanner.ParseFilter | redisimp/api.py:15-19 | A pattern is a regex exactly when it starts and ends with `/`. A regex pattern sends no MATCH glob. Any other pattern (or none) is the glob itself. |
| Scanner.RegexBetweenSlashes | redisimp/api.py:15-17 | The regex of a `/.../` pattern is the text between the slashes, and the pattern "/" gives the empty regex. |
| Scanner.ReadKeys | redisimp/api.py:6-30 | Its batches are the function `Batches`: one per non-empty reply up to the first zero cursor, filtered by the regex. Its SCAN calls are `Calls`. |
| Scanner.Scan | redisimp/api.py:21-30 | The cursor loop yields `Batches` of the replies and issues `Calls`, starting at cursor 0 and stopping after the reply whose cursor is 0. |
| Scanner.FilterReply | redisimp/api.py:24-27 | A reply yields one filtered batch when its key list is non-empty, and nothing otherwise. |
| Scanner.CallsFollowCursors | redisimp/api.py:21-23 | The first SCAN call uses cursor 0. Each later call uses the cursor the previous reply returned. Every call passes the batch size and the MATCH glob. There is one call per reply, up to the first reply with cursor 0. |
| Scanner.BatchesAreMatchingKeys | redisimp/api.py:23-27 | Together, the batches are exactly the scanned keys the filter selects, in scan order. |
| Scanner.OneBatchPerNonEmptyReply | redisimp/api.py:24-27 | There is exactly one batch per non-empty reply read, up to and including the first reply with cursor 0. An empty reply yields nothing. |
| Scanner.MatchingAppend | redisimp/api.py:26 | Filtering distributes over concatenation of key lists. |
| SnapshotReader.DumpPttlPairing | redisimp/api.py:35-37 | The source pipeline holds DUMP k and PTTL k for each key, in key order, at positions 2i and 2i+1. |
| SnapshotReader.SourcePipelineReplies | redisimp/api.py:38 | Executing that pipeline on the source answers each key's payload (empty when missing) and its PTTL, in order. |
| SnapshotReader.ValidSnapshots | redisimp/api.py:40-48 | Every snapshot has a non-empty payload, a ttl of at least 0, and a key of the batch. |
| SnapshotReader.ValidSnapshotsKeepOrder | redisimp/api.py:40-48 | The snapshot keys are a subsequence of the batch, in batch order. |
| SnapshotReader.ReadSnapshotsFaithful | redisimp/api.py:33-48 | Every snapshot read is the current payload and clamped ttl of a key the source holds. A vanished key never appears. |
| SnapshotReader.ReadSnapshotsNoneVanished | redisimp/api.py:40-48 | When no key of the batch vanished, snapshot i is key i's value: nothing is dropped or reordered. |
| SnapshotReader.ReadDataAndPttl | redisimp/api.py:33-48 | The first loop queues DUMP and PTTL for every key; the reply loop keeps, key by key, the snapshots `ValidSnapshots` gives for the prefix. The result is `ReadSnapshots` of the batch: in batch order, non-empty, with ttl >= 0. |
| SnapshotReader.ReplyStep | redisimp/api.py:40-48 | One turn of the reply loop: the snapshots of the first i + 1 keys are those of the first i keys, followed by key i's snapshot exactly when its dump is non-empty, its pttl clamped at 0. |
| Version.StripZeroSegments | redisimp/api.py:53 | The result is a prefix of the input, what was removed is a run of `.0…` segments, and the result no longer ends in one. |
| Version.SplitJoin | redisimp/api.py:53 | Splitting on dots and joining with dots gives the input back. |
| Version.JoinSplit | redisimp/api.py:53 | Joining dot-free segments and splitting again gives the segments back. |
| Version.ParseComponent | redisimp/api.py:53 | A segment parses exactly when it is a non-empty run of decimal digits. Otherwise `int()` raises. |
| Version.ParseAll | redisimp/api.py:53 | The list parses exactly when every segment does. It then has one number per segment. |
| Version.NormalizeNumerals | redisimp/api.py:52-53 | A version made of numerals whose last one is not all zeros normalizes to the list of their values. |
| Version.TrailingZeroIgnored | redisimp/api.py:53 | Appending `.0` to a version changes neither its stripped form nor its normalized list. |
| Version.CompareLists | redisimp/api.py:55 | Python 2 `cmp` on integer lists answers -1, 0 or 1, and 0 exactly for equal lists. |
| Version.CompareListsLexicographic | redisimp/api.py:55 | Which order `cmp` gives: when two lists agree on their first i elements, the one whose element at position i is smaller compares -1, and so does the one that ends at i while the other goes on. With `CompareListsAntisymmetric` this gives the +1 cases. |
| Version.CompareListsAntisymmetric | redisimp/api.py:55 | Swapping the arguments negates the answer. |
| Version.CompareListsTransitive | redisimp/api.py:55 | The order on lists is transitive. |
| Version.CompareVersionReflexive | redisimp/api.py:51-55 | A parseable version compares equal to itself. |
| Version.CompareVersionAntisymmetric | redisimp/api.py:51-55 | For parseable versions, swapping the arguments negates the comparison. |
| Version.ThreeZeroZeroIsThree | redisimp/api.py:52-53 | "3.0.0" normalizes to [3], the same as "3". |
| Version.TwoEightNineteen | redisimp/api.py:53 | "2.8.19" normalizes to [2, 8, 19]. |
| Version.OlderThanThree | redisimp/api.py:51-55 | "2.8.19" compares below "3.0.0". |
| Restore.SupportsReplace | redisimp/api.py:58-66 | A missing or empty version gives False without raising. |
| Restore.SupportsReplaceRaises | redisimp/api.py:58-66 | It raises exactly when the version is present, non-empty and unparseable. |
| Restore.SupportsReplaceAtLeastThree | redisimp/api.py:63-66 | For a parseable version, REPLACE is supported exactly when the version compares at or above [3]. |
| Restore.SupportsReplaceMonotone | redisimp/api.py:63-66 | A version at or above one that supports REPLACE supports it too. |
| Restore.RestoreHandlerByVersion | redisimp/api.py:58-82 | With no version or an empty one the handler is DEL + RESTORE. A well-formed version gets RESTORE … REPLACE exactly when it is at least 3 (trailing zero segments aside), and DEL + RESTORE otherwise. Choosing the handler raises exactly for a non-empty malformed version. |
| Restore.HandlerCommands | redisimp/api.py:69-75 | A handler queues one or two commands. The last is RESTORE of the snapshot, with REPLACE exactly for the replace handler. |
| Restore.HandlerForOldServer | redisimp/api.py:58-82 | A server reporting 2.8.19 gets the delete-then-restore handler. |
| Restore.HandlerForThree | redisimp/api.py:58-82 | A server reporting 3.0.0 gets the RESTORE … REPLACE handler. |
| Restore.HandlerOverwrites | redisimp/api.py:69-75 | Either handler, for a payload the server accepts, leaves the key holding the snapshot whatever it held before. Every other key is untouched and no reply is an error. |
| Restore.HandlerRejected | redisimp/api.py:69-75 | For a payload the server rejects, the pipeline raises the bad-payload error. RESTORE … REPLACE leaves the old value in place, while DEL + RESTORE has already removed the key. |
| Server.Apply | redisimp/api.py:69-75 | A successful RESTORE stores the payload with its ttl. A command other than DEL that fails leaves the store unchanged. |
| Server.PttlOf | redisimp/api.py:37-43 | PTTL answers -2 exactly for a missing key and -1 exactly for a key without expiry. |
| Server.FirstError | redisimp/api.py:108 | `execute()` raises exactly when some reply is an error, and it raises one of those errors. |
| Server.FirstErrorIsFirst | redisimp/api.py:108 | The error `execute()` raises is the one of the first error reply. |
| Server.NonDestructivePipeline | redisimp/api.py:123-134 | EXISTS and plain RESTORE commands never remove or change a key the store holds. |
| Server.Destination.Execute | redisimp/api.py:104-108 | The new store and the replies are the pipeline's execution on the old store. The log grows by the pipeline when it is non-empty. |
| Clobber.ReplaceLayout | redisimp/api.py:69-70 | With REPLACE support, the pipeline is one RESTORE … REPLACE per snapshot, in order. |
| Clobber.DeleteLayout | redisimp/api.py:73-75 | Without REPLACE support, the pipeline is DEL k, RESTORE k for each snapshot, in order. |
| Clobber.ClobberCommandsEffect | redisimp/api.py:104-108 | For accepted payloads, the pipeline raises nothing. Every restored key holds the source's value, and every other key is untouched. |
| Clobber.ClobberStepAccepted | redisimp/api.py:103-108 | One batch with accepted payloads yields the snapshot keys, raises nothing and mirrors them. |
| Clobber.ClobberRoundTrip | redisimp/api.py:92-108 | For accepted payloads, a clobber run leaves every yielded key holding the source's value (overwriting what was there) and every other key as it was. |
| Clobber.ClobberYieldsValidKeys | redisimp/api.py:103-107 | For accepted payloads, a run yields exactly the keys still in the source, batch after batch, in scan order. |
| Clobber.ClobberOnePipelinePerBatch | redisimp/api.py:104-108 | For accepted payloads, each batch sends exactly the pipeline of its snapshots' handler commands, in batch order. A batch with no snapshot sends none. |
| Clobber.ClobberYieldsBeforeWrite | redisimp/api.py:105-108 | A key is yielded even when the pipeline then raises and the key was never written. |
| Clobber.ClobberBatch | redisimp/api.py:104-108 | One iteration of the batch loop computes the function `ClobberStep`. |
| Clobber.ClobberAll | redisimp/api.py:103-108 | The batch loop computes `Drive` over the batches and stops at the first pipeline that raises. |
| Clobber.ClobberCopy | redisimp/api.py:92-108 | clobber_copy chooses the handler once (raising before any scan if the version check raises), then computes `ClobberRun` of the scanned batches. |
| Backfill.ExistsPipeline | redisimp/api.py:123-127 | The EXISTS pipeline changes nothing and raises nothing. The keys it reports missing are exactly the batch's keys the destination lacks, in batch order. |
| Backfill.Classify | redisimp/api.py:136-144 | The result loop yields keys of results that succeeded. It raises exactly when some error's text lacks `is busy`, and raises such an error. |
| Backfill.BusyMatchesOldServersOnly | redisimp/api.py:141 | The `is busy` check matches the busy-key text of Redis before 3.0 and not the `BUSYKEY` text of 3.0 and later. |
| Backfill.DuplicateRestoreReplies | redisimp/api.py:131-136 | Restoring a key read twice: the first RESTORE writes the source's value and succeeds, the second answers the server's busy-key error. |
| Backfill.BackfillDuplicateKey | redisimp/api.py:121-144 | A batch listing a missing key twice copies it, yields it once, and raises the busy-key error exactly when its text lacks `is busy`. |
| Backfill.BackfillDuplicateAborts | redisimp/api.py:121-144 | On a Redis 3.0 or later destination, such a batch raises `BUSYKEY Target key name already exists.` |
| Backfill.ClassifyBy | redisimp/api.py:136-144 | The result loop with the busy-key check as a parameter: it raises exactly when some error fails the check, and raises such an error. |
| Backfill.ClassifyByBusy | redisimp/api.py:136-144 | With the check as written, it is the result loop of backfill_copy. |
| Backfill.BusyKeyErrorOnBothServers | redisimp/api.py:141 | The corrected check accepts the busy-key text of servers before 3.0 and since. |
| Backfill.DuplicateKeySkipped | redisimp/api.py:136-144 | With the corrected check, on either server generation, the duplicate key's restore replies yield the key once and raise nothing. |
| Backfill.FirstFatal | redisimp/api.py:136-144 | The position it gives is that of the first error whose text lacks `is busy`, or the end of the results if there is none. |
| Backfill.ClassifyStopsAtFirstFatal | redisimp/api.py:136-144 | The result loop yields, in order, the key of every successful result before the first error whose text lacks `is busy`, and raises that error's message. With no such error it yields every success and raises nothing. |
| Backfill.ClassifyNoErrors | redisimp/api.py:136-139 | When no result is an error, every key with a result is yielded, in order. |
| Backfill.ClassifyYieldsSuccesses | redisimp/api.py:136-139 | Every yielded key stands at the position of a successful result. |
| Backfill.BackfillStepKeeps | redisimp/api.py:121-144 | One batch never overwrites or removes a key the destination holds. |
| Backfill.BackfillKeepsExisting | redisimp/api.py:111-144 | A backfill run never overwrites or removes a key the destination held when it started. |
| Backfill.BackfillStepYieldsAbsent | redisimp/api.py:124-138 | A batch yields only its own keys that the destination lacked (true as written too: every key yielded is one of the missing keys). |
| Backfill.BackfillYieldsOnlyAbsent | redisimp/api.py:111-144 | A run yields only keys the destination lacked when the run started. |
| Backfill.BackfillStepAllPresent | redisimp/api.py:126-129 | A batch whose every key the destination holds changes nothing, yields nothing and sends only EXISTS. |
| Backfill.BackfillAllPresent | redisimp/api.py:121-129 | When the destination holds every scanned key, the run changes nothing and yields nothing. |
| Backfill.RestorePipelineEffect | redisimp/api.py:131-136 | Plain restores of distinct absent keys with accepted payloads all succeed and write exactly those keys with the source's values. |
| Backfill.BackfillStepAligned | redisimp/api.py:121-144 | A batch of distinct keys none of which vanished, with accepted payloads, yields exactly the keys the destination lacked, in batch order. Each now holds the source's value, and the destination then holds every key of the batch. |
| Backfill.BackfillRoundTrip | redisimp/api.py:111-144 | Over such batches, a run raises nothing. Every yielded key holds the source's value, every other key is unchanged, and every scanned key ends up on the destination. |
| Backfill.BackfillIdempotent | redisimp/api.py:111-144 | Running a backfill a second time over the same scan yields nothing and changes nothing. |
| Backfill.RestoreSuccessPersists | redisimp/api.py:134-138 | A restore that succeeded in the pipeline still holds its value when the pipeline ends. |
| Backfill.BackfillMisaligned | redisimp/api.py:133-138 | As written, when the first of two missing keys vanished before it was read, the batch yields the vanished key (never written) instead of the key actually restored. With results paired to the restores sent, the batch yields the restored key. |
| Backfill.StepMatchesIntended | redisimp/api.py:131-144 | The batch as written and the batch with results paired to the restores sent raise the same error, leave the same destination and send the same pipelines. When no key of the batch vanished from the source they also yield the same keys. |
| Backfill.BackfillStepYieldsWritten | redisimp/api.py:131-138 | With results paired to the restores sent (the intended pairing), every yielded key is one of the batch, was absent, and now holds the source's value. |
| Backfill.BackfillYieldsCopied | redisimp/api.py:111-144 | In a run in which no scanned key vanished from the source, every key backfill_copy yields was absent when the run started and ends up holding the source's value. |
| Backfill.ClassifyResults | redisimp/api.py:136-144 | The result loop computes `Classify`. |
| Backfill.QueueExists | redisimp/api.py:123-125 | The loop queues `ExistsCommands` of the batch. |
| Backfill.CollectMissing | redisimp/api.py:126-127 | The comprehension keeps the keys whose EXISTS reply is falsy. |
| Backfill.QueueRestores | redisimp/api.py:133-134 | The loop queues a plain RESTORE per snapshot. |
| Backfill.RestoreMissing | redisimp/api.py:131-144 | Reading and restoring the missing keys, with result `i` classified against the `i`-th missing key, computes the function `MissingRestored`. |
| Backfill.BackfillBatch | redisimp/api.py:122-144 | One iteration of the batch loop computes `BackfillStep`, including the `continue` when nothing is missing. |
| Backfill.BackfillAll | redisimp/api.py:121-144 | The batch loop computes `Drive` over the batches and stops at the first batch that raises. |
| Backfill.BackfillCopy | redisimp/api.py:111-144 | backfill_copy computes `BackfillBatches` of the scanned batches, with each result paired as written to the i-th missing key. |
| Copy.CopyModes | redisimp/api.py:85-89 | A backfill copy never changes a key the destination held. A clobber copy with accepted payloads leaves every yielded key holding the source's value and every other key unchanged. |
| Copy.Copy | redisimp/api.py:85-89 | copy dispatches on `backfill` to the backfill or the clobber run of the same scan. |

## Left out

- `redisimp/cli.py` and `multi_copy` are not part of this model: argument
  parsing, connection setup, progress output and running several sources.
- Regex matching. `re.match` is an abstract `matcher(regex, key)`
  parameter, and the glob MATCH is applied by the server, whose SCAN
  replies are an oracle.
- Generator laziness. A generator is modelled by its complete run: the
  keys it yielded, the error that ended it, and the pipelines it sent. A
  consumer that stops early, and interleaving with other clients between
  pipelines, are not modelled (between two pipelines the source and
  destination do not change).
- Time. Ttls do not decay while a copy runs. INFO, SCAN, DUMP and PTTL all
  see one snapshot of each server.
- DUMP of a key that vanished from the source. The server answers nil,
  which redis-py returns as `None`, and `len(None)` at api.py:44 raises
  TypeError, which ends the generator. The model instead assumes a client
  whose DUMP of a missing key answers an empty payload. That is the case
  the `len(data) < 1` check is written for, so the key is skipped. The
  TypeError path is not modelled. `SourcePipelineReplies`,
  `ReadSnapshotsFaithful` and the Findings row rest on this assumption.
- `re.compile` raising on an invalid `/…/` regex (api.py:16): the regex is
  an abstract matcher, so a malformed regex is not modelled.
- The `int()` of a PTTL reply: the model's PTTL reply is always an integer,
  so the error path of `int()` on it is not modelled.
- `compare_version` returns `cmp`'s -1/0/1 on the normalized lists. Its
  regex `(\.0+)*$` is modelled as removing trailing segments made only of
  zeros, and `int()` as accepting non-empty runs of ASCII digits only. The
  sign and surrounding whitespace `int()` would also accept are not
  modelled.
- An empty pipeline is recorded in the destination's log as not sent, since
  executing an empty pipeline sends no command to the server.
- Redis Cluster destinations, transactions and connection errors.
- Restore.SupportsReplace: its ensures covers only the missing/empty
  version case; the raising and the version threshold are stated by
  `SupportsReplaceRaises`, `SupportsReplaceAtLeastThree` and
  `SupportsReplaceMonotone`.

## Findings

| source | as written | input that shows it | evidently intended | confidence | as-written member | corrected member |
|---|---|---|---|---|---|---|
| redisimp/api.py:133-138 | The i-th RESTORE result is reported for `keys[i]`, the i-th key that EXISTS found missing. But `read` skips keys that vanished from the source, so after a skipped key the results no longer line up with `keys`. | Batch `[gone, kept]`, both missing on the destination; `gone` deleted from the source before it was read, with a client whose DUMP of a missing key answers an empty payload (the case api.py:44-45 handles; redis-py answers `None`, and the read then raises TypeError instead). The one restore is `kept`'s, and the run yields `gone` (never written) and not `kept` (written). | Result i stands for the key of the i-th restore sent, so the keys yielded are exactly the ones restored. | not executed | Backfill.BackfillMisaligned | Backfill.BackfillStepYieldsWritten |
| redisimp/api.py:141 | A failed RESTORE is skipped only when its error text contains `is busy`. That is the busy-key text of Redis before 3.0 (`ERR Target key name is busy.`); Redis 3.0 and later answer `BUSYKEY Target key name already exists.`, so there the error raises and ends the run. | A batch in which SCAN returned a key twice (Redis documents that SCAN may return an element more than once; the model lets one reply carry it twice), absent from a Redis 3.0 or later destination. Both copies are missing, both are restored; the second RESTORE answers BUSYKEY and the run raises. | A RESTORE that meets an existing key is skipped whatever the server calls the error, so the key is yielded once and the run goes on. | not executed | Backfill.BackfillDuplicateAborts | Backfill.DuplicateKeySkipped |

`Backfill.BackfillStep`, and with it `Backfill.BackfillCopy` and `Copy.Copy`,
model the pairing as written. The intended pairing is
`Backfill.BackfillStepIntended`. `Backfill.StepMatchesIntended` shows that
the two differ only in what they yield, and only when a key vanished.
For the busy-key check, `Backfill.ClassifyBy` is the result loop with the
check as a parameter; `Backfill.ClassifyByBusy` shows it is the loop as
written when given `Busy`, and `Backfill.BusyKeyError` is the corrected
check. The rest of the model keeps the check as written.
