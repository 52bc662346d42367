# Lead-enrichment coordination layer in Dafny

This project models the store-backed core of a lead-enrichment service. The core has six
parts:

- **The key-value store.** This is the in-memory `FakeValkey` stand-in with hashes, strings,
  head-insert lists and FIFO pub/sub channels, plus `set_job_status`.
- **The distributed workspace manager.** It provides the lock (`SET NX` plus a
  compare-and-delete script), the operation log, and lock-guarded idempotent create. It also
  provides unlocked get, lock-guarded delete and the key-scan listing.
- **The agent pipeline.** The miner, the validator and the synthesizer run in order. The
  pipeline writes status snapshots and stores the lead record only after every stage has
  returned.
- **The jobs endpoints.** These are `enqueue` (including the inline fallback), `status`,
  paginated `leads` and the bounded event stream.
- **The workspace endpoints.** These cover the token check, the request mapping and the
  mapping of errors to HTTP codes. The fallback workspace listing, which tries several
  approaches, belongs to this part too.
- **The token-bucket rate limiter.**

Everything is a pure function over an immutable `Valkey.Store`. Some commands can raise after
they have written something; such a command returns a `Step(st, out)`. That pairs the store
after the command with an `Ok` reply or an `Err` message. An HTTP reply is a
`Response`: either `Reply(body)` or `Refused(code, detail)`.

Modules:

| file | module | models |
|---|---|---|
| results.dfy | Results | `Option`, `Result`, `Response` |
| seqs.dfy | Seqs | order-preserving de-duplication (`dict.fromkeys`), filtering |
| text.dfy | Text | lower-casing, `str.split`, `" ".join`, substring search, `int()` on digit strings |
| glob.dfy | Glob | Redis `KEYS` glob matching for patterns whose only wildcard is `*` |
| valkey.dfy | Valkey | `FakeValkey`, `_FakePubSub`, `set_job_status`, `_decode_map` |
| locks.dfy | Locks | `_acquire_lock`, `_release_lock`, lock expiry |
| workspaces.dfy | Workspaces | `DistributedWorkspaceManager` |
| agents.dfy | Agents | `Miner.run`, `Validator.run`, `Synthesizer.run` |
| pipeline.dfy | Pipeline | `AgentPipeline.run` |
| jobs_api.dfy | JobsApi | `process_lead`, `enqueue`, `status`, `leads`, `stream` |
| workspaces_api.dfy | WorkspacesApi | `verify_token`, `add_workspace`, `list_workspaces`, `get_workspace_detail`, `delete_workspace` |
| listing_fix.dfy | ListingFix | `fix_workspace_listing`, `_list_by_pattern`, `_list_all_and_filter` |
| rate_limiter.dfy | RateLimiter | `TokenBucket`, `RateLimiter` |

The model follows the code wherever the code and its documentation differ:

- Lock keys are `locks:workspace_create:{id}` and `locks:workspace_delete:{id}`.
- The pipeline publishes `mining` at 0.2, `validating` at 0.5 and `complete` at 1.0.
- No `synthesizing` status is ever written.

There are two simplifications in how the store is represented:

- **Workspace commands follow Redis.** The manager issues `SET NX EX`, `EVAL`, `EXPIRE` and
  glob `KEYS`, which `FakeValkey` does not implement. Those commands are modelled with their
  Redis meaning.
- **`FakeValkey` shares one dict between hashes and `set`.** The lock keys therefore live in a
  separate `strings` map, so that `set` and `get` stay FakeValkey's own.

## Model

| member | source | states |
|---|---|---|
| Valkey.Empty | backend/core/valkey.py:90-95 | a new store satisfies the representation invariant (insertion order lists each hash key once) |
| Valkey.AddKey | backend/core/valkey.py:97-103 | a new hash name goes last in insertion order, an existing one keeps its place, and no name is duplicated |
| Valkey.RemoveKey | backend/core/valkey.py:141-143 | deleting a name removes exactly that name from the insertion order and keeps it duplicate-free |
| Valkey.HGetAll | backend/core/valkey.py:105-106 | `hgetall` of an absent name is the empty map |
| Valkey.HSet | backend/core/valkey.py:97-103 | `hset` merges `mapping`, then the keyword fields (which win on a shared field), into that hash only; all other fields, every other hash, the lists and the channels are kept |
| Valkey.HSetField | backend/core/valkey.py:97-103 | setting one field updates exactly that field of that hash and leaves everything else unchanged |
| Valkey.HSetReadsHashes | backend/core/valkey.py:97-103 | `hset` reads and writes only the hashes and their order |
| Valkey.HIncrBy | backend/core/valkey.py:108-111 | `hincrby` on a missing field stores and returns `amount`; on a present field it raises exactly when `int()` rejects the value, leaving the hash unchanged, and otherwise returns and stores `int(value) + amount` |
| Valkey.HIncrByTwice | backend/core/valkey.py:108-111 | two increments of an integer (or missing) field add up |
| Valkey.HIncrByReadsIntOf | backend/core/valkey.py:108-111 | whenever the stored field converts with `int()` to `n`, `hincrby` returns `n + amount` |
| Valkey.IntOfPaddedText | backend/core/valkey.py:110 | `int()` of an integer's decimal text surrounded by whitespace gives the integer |
| Valkey.HIncrByPaddedText | backend/core/valkey.py:108-111 | `hincrby` on a field holding whitespace-padded decimal text returns the sum and stores it as an integer |
| Valkey.Keys | backend/core/valkey.py:114-120 | `keys("*")` is every hash key in insertion order; every other pattern returns only the matching hash keys (a prefix before a trailing `*`, otherwise an exact key); list keys are never returned, and no key is returned twice |
| Valkey.GlobKeys | backend/core/workspace_listing_fix.py:105 | Redis `KEYS` restricted to the hash keys: it returns exactly the hash keys the glob matches, once each (keys of other types are handled separately, see Left out) |
| Valkey.KeysAgreeWithGlob | backend/core/valkey.py:114-120 | for `*`, for a literal prefix followed by `*` and for a literal, FakeValkey's matching agrees with Redis glob matching |
| Valkey.LPush | backend/core/valkey.py:123-125 | `lpush` puts the values at the head of the list in argument order, and every other key and channel is kept |
| Valkey.PyIndex | backend/core/valkey.py:127-131 | a Python slice bound is normalised to the range 0..n, with negative bounds counted from the end |
| Valkey.PySlice | backend/core/valkey.py:127-131 | Python's `s[a:b]` equals the Dafny slice for in-range bounds and is empty when the bounds cross |
| Valkey.LRange | backend/core/valkey.py:127-131 | `lrange(s, -1)` is the suffix from `s`; otherwise it returns elements `s..e` inclusive |
| Valkey.LPushThenLRange | backend/core/valkey.py:123-131 | values just pushed are read back first and in order, ahead of the older elements |
| Valkey.Set | backend/core/valkey.py:134-135 | `set` replaces whatever hash was stored under the name with the one-field hash `{value: v}`, and keeps every other name |
| Valkey.Get | backend/core/valkey.py:137-139 | `get` is `None` exactly when the hash has no `value` field, and otherwise it is that field |
| Valkey.SetThenGet | backend/core/valkey.py:134-139 | `set(n, v)` followed by `get(n)` returns `v`, and `get` of any other name is unchanged |
| Valkey.Delete | backend/core/valkey.py:141-143 | `delete` removes the name as a hash, a list and a string key, keeps every other name, and is a no-op when the name is absent |
| Valkey.FlushDb | backend/core/valkey.py:172-174 | `flushdb` removes every key, while channel queues survive |
| Valkey.Publish | backend/core/valkey.py:146-147 | `publish` appends the message to that channel's queue and changes nothing else |
| Valkey.Subscribe | backend/core/valkey.py:154-156 | `subscribe` adds the channel once; subscribing again changes nothing |
| Valkey.Close | backend/core/valkey.py:166-167 | `close` drops every subscription |
| Valkey.FirstReady | backend/core/valkey.py:158-164 | finds the first subscribed channel that has a waiting message; every earlier one is empty |
| Valkey.GetMessage | backend/core/valkey.py:158-164 | `get_message` is `None` exactly when no subscribed channel has a message; otherwise it removes and returns the oldest message of the first subscribed channel that has one |
| Valkey.PublishedBeforeSubscribeDeliveredInOrder | backend/core/valkey.py:146-164 | messages published before anyone subscribes are still delivered, oldest first |
| Valkey.DecodeMap | backend/api/jobs.py:25-31 | `_decode_map` keeps every key, replaces bytes values by their text and leaves other values unchanged |
| Valkey.DecodeMapIdempotent | backend/core/distributed_workspaces.py:235-237 | decoding twice is the same as decoding once |
| Valkey.StatusMapping | backend/core/valkey.py:183-192 | always writes `status`, writes `progress` only when given and `error` only when non-empty, and writes no other field |
| Valkey.SetJobStatus | backend/core/valkey.py:183-196 | the job hash becomes the old hash merged with the status mapping, so other fields are kept; the same snapshot is published only when delivery succeeds, and a failed publish changes nothing else |
| Locks.AcquireLock | backend/core/distributed_workspaces.py:50-64 | `_acquire_lock` stores the token and returns it exactly when the lock key is absent; otherwise it returns `None` and the store is unchanged |
| Locks.ReleaseLock | backend/core/distributed_workspaces.py:66-81 | `_release_lock` deletes the lock key and reports true exactly when the key holds this token; a lock held by another token is untouched |
| Locks.Lapse | backend/core/distributed_workspaces.py:60 | once the lock's TTL runs out, the key is gone whoever held it |
| Locks.LockIsExclusive | backend/core/distributed_workspaces.py:50-81 | while one token holds the lock, no other acquisition succeeds and no other token can release it |
| Locks.StaleReleaseKeepsNewHolder | backend/core/distributed_workspaces.py:66-81 | a holder whose lock lapsed and was taken by someone else cannot release the new holder's lock |
| Locks.AcquireReleaseRestores | backend/core/distributed_workspaces.py:50-81 | acquiring a free lock and releasing it with the same token restores the store |
| Workspaces.WithId | backend/core/distributed_workspaces.py:165-166 | the reply record is the stored fields plus `id`, and `id` overrides any stored `id` field |
| Workspaces.WorkspaceKeyIsNotOperationKey | backend/core/distributed_workspaces.py:86-147 | workspace keys and operation keys never collide |
| Workspaces.WorkspaceKeyIsNotLockKey | backend/core/distributed_workspaces.py:55-147 | workspace keys and lock keys never collide |
| Workspaces.OperationKeyIsNotLockKey | backend/core/distributed_workspaces.py:55-86 | operation keys and lock keys never collide |
| Workspaces.WorkspaceKeyInjective | backend/core/distributed_workspaces.py:147 | distinct workspace ids have distinct keys |
| Workspaces.MatchesPatternIffWorkspaceKey | backend/core/distributed_workspaces.py:217 | `workspaces:*:keys` matches exactly the keys of some workspace id |
| Workspaces.SplitIdOfPlainId | backend/core/distributed_workspaces.py:226-227 | for an id without `:`, the split-based id derivation recovers the id |
| Workspaces.SplitIdTruncatesColonId | backend/core/distributed_workspaces.py:226-227 | the split-based derivation turns the key of `team:a` into `team`, while the corrected one recovers `team:a` |
| Workspaces.KeyIdOfWorkspaceKey | backend/core/distributed_workspaces.py:226-227 | the corrected derivation recovers every workspace id from its key |
| Workspaces.KeyIdAgreesOnPlainIds | backend/core/distributed_workspaces.py:226-227 | the corrected and split-based derivations agree on ids without `:` |
| Workspaces.OperationRecord | backend/core/distributed_workspaces.py:90-98 | the operation record has exactly the seven fields `operation_id`, `operation_type`, `workspace_id`, `data` (the JSON document), `timestamp`, `status` and `error`, each holding the operation's value |
| Workspaces.QueueOperation | backend/core/distributed_workspaces.py:83-107 | `_queue_operation` merges the record into `operations:{id}`, pushes the id at the head of the queue, returns the id and touches no other key |
| Workspaces.MarkOperation | backend/core/distributed_workspaces.py:177-191 | sets the operation's status (and its error, when given) and changes no other hash |
| Workspaces.MarkReadsHashes | backend/core/distributed_workspaces.py:177-191 | marking an operation reads and writes only the hashes |
| Workspaces.CreateFresh | backend/core/distributed_workspaces.py:169-192 | with no record, the fields are stored exactly. A non-empty write returns the decoded fields plus `id` and marks the operation `completed`. An empty write reads back as nothing, so the operation becomes `failed` |
| Workspaces.CreateBody | backend/core/distributed_workspaces.py:159-192 | with a record, the reply is the stored fields plus `id` and nothing is written (the operation stays `pending`); without one, it is the fresh write |
| Workspaces.CreateBodyReadsHashes | backend/core/distributed_workspaces.py:159-192 | the guarded body depends only on the hashes |
| Workspaces.CreateHolding | backend/core/distributed_workspaces.py:158-196 | the guarded body runs, then the create lock is released on every exit path |
| Workspaces.ProcessCreate | backend/core/distributed_workspaces.py:145-196 | with a free lock, the body runs and the lock is released; with a taken lock, there is one retry after the pause and then either the body or the "Could not acquire lock" error, with no workspace write |
| Workspaces.CreateWorkspace | backend/core/distributed_workspaces.py:128-143 | an existing record is returned unchanged and the operation stays `pending`; a free id stores exactly the data, and the operation ends `completed` (or `failed` for empty data) |
| Workspaces.QueuedCreate | backend/core/distributed_workspaces.py:128-143 | logging the operation leaves the create lock and the workspace record alone |
| Workspaces.CreateFound | backend/core/distributed_workspaces.py:159-167 | create on an existing id returns the stored fields plus `id`, writes no workspace and leaves the operation `pending` |
| Workspaces.CreateStored | backend/core/distributed_workspaces.py:169-184 | create on an absent id stores exactly the fields, returns them plus `id` and marks the operation `completed` |
| Workspaces.CreateIsIdempotent | backend/core/distributed_workspaces.py:159-184 | creating twice with the same fields gives the same reply both times, and the stored record is the one the first call wrote |
| Workspaces.CreateThenGet | backend/core/distributed_workspaces.py:169-252 | a later `get_workspace_distributed` returns exactly what create returned |
| Workspaces.CreateThenListed | backend/core/distributed_workspaces.py:169-233 | a workspace created on a free id appears in the listing |
| Workspaces.ListedWhenStored | backend/core/distributed_workspaces.py:213-233 | every workspace with a non-empty record is listed with its own id |
| Workspaces.GetWorkspace | backend/core/distributed_workspaces.py:239-252 | get succeeds exactly when the record is non-empty, and then returns its decoded fields plus `id`; otherwise it raises "Workspace {id} not found" |
| Workspaces.DeleteWorkspace | backend/core/distributed_workspaces.py:254-276 | with the lock taken it raises and changes nothing; an absent id raises "not found" and leaves the store unchanged; a present id is removed, true is returned, the lock is released and every other hash is kept |
| Workspaces.DeleteTwiceFails | backend/core/distributed_workspaces.py:254-276 | after a successful delete, a second delete and a get both fail with "not found" |
| Workspaces.Entries | backend/core/distributed_workspaces.py:219-233 | every key with a non-empty hash gives an entry carrying the key's id, and every entry comes from such a key; there are never more entries than keys |
| Workspaces.EntriesAppend | backend/core/distributed_workspaces.py:219-233 | the entries of two key lists placed end to end are the entries of the first followed by those of the second |
| Workspaces.EntriesSingle | backend/core/distributed_workspaces.py:224-233 | one key gives one entry, its decoded hash with its id, when its hash is non-empty, and none otherwise |
| Workspaces.EntriesOnePerKey | backend/core/distributed_workspaces.py:219-233 | one entry per key with a non-empty hash, in key order: entry `i` is the `i`-th such key's decoded hash with that key's id |
| Workspaces.ListWithoutLock | backend/core/distributed_workspaces.py:213-233 | the listing holds exactly the non-empty workspace records, each decoded and carrying its own id (by the corrected derivation under Findings) |
| Workspaces.ListWithoutLockAsWritten | backend/core/distributed_workspaces.py:213-233 | as written, every non-empty workspace record is listed, decoded, with the id `key.split(":")[1]`, and every entry is such a record |
| Workspaces.ListWithoutLockOnePerKey | backend/core/distributed_workspaces.py:213-233 | the listing has exactly one entry per matched workspace key with a non-empty record, in the order `KEYS` returns them, and on a well-formed store no key is matched twice |
| Workspaces.ListWithoutLockAsWrittenOnePerKey | backend/core/distributed_workspaces.py:213-233 | as written, too, one entry per matched key with a non-empty record, in key order, even when two keys give the same split-based id |
| Workspaces.SplitIdShape | backend/core/distributed_workspaces.py:226-227 | the split-based id is either free of `:` or the whole key |
| Workspaces.ListingAsWrittenTruncatesColonId | backend/core/distributed_workspaces.py:226-227 | as written, a workspace stored as `team:a` is listed with id `team` and no entry carries `team:a`; the corrected listing lists it as `team:a` |
| Workspaces.EntriesReadOnlyHashes | backend/core/distributed_workspaces.py:213-233 | the listing depends only on the hashes |
| Workspaces.ListDistributed | backend/core/distributed_workspaces.py:198-211 | the same listing whether or not the list lock is taken, with the store left as it was |
| Agents.CompanyOf | backend/agents/synthesizer.py:12 | the company is `lead["company"]` when non-empty, else `lead["name"]` when present, else "Unknown Co" |
| Agents.CompanyOfReadsNameFields | backend/agents/miner.py:13 | the company depends on the `company` and `name` fields alone |
| Agents.Mine | backend/agents/miner.py:12-20 | exactly two signals, each starting with the company, the first containing "cost" |
| Agents.Validate | backend/agents/validator.py:11-17 | the tech stack is exactly `["AWS", "Salesforce"]` and there is exactly one risk |
| Agents.StagesReadNameFields | backend/agents/miner.py:12-20 | the miner's and the validator's output depends only on the lead's `company` and `name` |
| Agents.FitScore | backend/agents/synthesizer.py:14-16 | the score lies in 0..100; it is 0 exactly when the penalty reaches the base, and otherwise it is the base minus 5 per risk |
| Agents.FitScoreNonIncreasing | backend/agents/synthesizer.py:14-16 | more risks never raise the score |
| Agents.FitScoreSignalsHelp | backend/agents/synthesizer.py:15 | having signals never lowers the score |
| Agents.Wedge | backend/agents/synthesizer.py:18-20 | the cost-pressure sentence is chosen exactly when "cost" occurs, ignoring case, in the space-joined signals; otherwise it is the pricing sentence; both start with the company |
| Agents.WedgeFromOneSignal | backend/agents/synthesizer.py:18-20 | the cost sentence is chosen exactly when some single signal mentions "cost" in any case |
| Agents.Synthesize | backend/agents/synthesizer.py:11-28 | the record carries the company, the signals passed through, the validated tech stack (or `[]`), the clamped score and the wedge |
| Agents.LowerKeepsCost | backend/agents/synthesizer.py:18 | lower-casing keeps a lower-case needle where it stood |
| Agents.StagesAlwaysScore85 | backend/agents/synthesizer.py:14-20 | on the miner's and validator's output the score is always 85, and the wedge is the cost sentence |
| Text.Lower | backend/agents/synthesizer.py:18 | `str.lower` on ASCII letters: the length is kept and each character is lower-cased (`A`..`Z` to `a`..`z`, everything else unchanged) |
| Text.Split | backend/core/distributed_workspaces.py:226 | `str.split` yields at least one part |
| Text.JoinSplit | backend/core/distributed_workspaces.py:226 | joining the parts of a split with the separator gives back the string |
| Text.ContainsLowerJoin | backend/agents/synthesizer.py:18 | a space-free needle occurs in the lower-cased space-joined signals exactly when it occurs in one lower-cased signal |
| Text.ParseIntToString | backend/core/valkey.py:110 | `int()` of the decimal text of any integer, with any whitespace before and after, gives the integer back (text and bytes alike, each with its own whitespace set) |
| Text.ParseIntSkipsUnderscore | backend/core/valkey.py:110 | `int()` accepts a single `_` between digit groups and ignores it |
| Text.ParseIntRejectsLooseUnderscores | backend/core/valkey.py:110 | `int()` rejects a doubled, leading or trailing `_` |
| Text.StripKeepsSlice | backend/core/valkey.py:110 | the whitespace `int()` strips is a leading and a trailing run; what is kept is the slice between them |
| Text.StripEndsNotBlank | backend/core/valkey.py:110 | the stripped text neither starts nor ends with whitespace |
| Text.StripCutsBlanks | backend/core/valkey.py:110 | every character stripped away is whitespace |
| Text.SplitPartsAvoidSeparator | backend/core/distributed_workspaces.py:226 | no part produced by `str.split(c)` contains `c` |
| Seqs.Dedupe | backend/api/jobs.py:71 | `dict.fromkeys` keeps each element once and drops nothing else |
| Seqs.DedupeKeepsFirstOccurrenceOrder | backend/api/jobs.py:71 | the de-duplicated keys appear in the order of their first occurrences |
| Seqs.DedupeOfDistinct | backend/api/jobs.py:71 | a list without duplicates is unchanged |
| Seqs.Filter | backend/core/workspace_listing_fix.py:129-133 | the filter keeps exactly the elements satisfying the test, never more than there were, and keeps a duplicate-free list duplicate-free (order: see `Seqs.FilterAppend`) |
| Seqs.FilterAppend | backend/core/workspace_listing_fix.py:129-133 | filtering two lists placed end to end gives the two filtered lists end to end, so the kept elements stay in their original order |
| Seqs.FilterSingle | backend/core/workspace_listing_fix.py:129-133 | a one-element list keeps its element exactly when it passes the test |
| Glob.MatchStar | backend/core/workspace_listing_fix.py:126 | `*` matches every key |
| Glob.MatchLiteral | backend/core/valkey.py:119-120 | a pattern without `*` matches only itself |
| Glob.MatchPrefixPattern | backend/core/valkey.py:117-118 | `prefix*` matches exactly the keys starting with the prefix |
| Glob.MatchPrefixSuffixPattern | backend/core/distributed_workspaces.py:217 | `head*tail` matches exactly the keys that start with `head`, end with `tail` and are long enough for both |
| Glob.MatchInfix | backend/core/workspace_listing_fix.py:83 | `*lit*` matches exactly the keys containing `lit` |
| Pipeline.LeadId | backend/agents/pipeline.py:35 | the lead id is `lead["id"]` when non-empty, else the fresh id, so it is never empty |
| Pipeline.LeadRecord | backend/agents/pipeline.py:36 | the stored record has exactly the synthesizer's five fields, each holding the synthesizer's value: company and wedge as text, the score as an integer, tech stack and signals as lists |
| Pipeline.Status | backend/agents/pipeline.py:24-27 | a status is written only when there is a job |
| Pipeline.Fail | backend/agents/pipeline.py:41-44 | the except branch marks the job `failed` with the message, without progress, and re-raises |
| Pipeline.Run | backend/agents/pipeline.py:23-44 | on success the reply is the record plus the lead id, and the store gets stage statuses, the record, the pushed id and `complete`; on a fault the job is marked failed after the stages reached, and the message is re-raised |
| Pipeline.ReachedKeepsOthers | backend/agents/pipeline.py:26-30 | stage statuses touch only the job's hash and channel |
| Pipeline.FinishKeepsLead | backend/agents/pipeline.py:37-39 | the job bookkeeping after the record leaves the lead record alone |
| Pipeline.CompletedStoresLead | backend/agents/pipeline.py:36-39 | after a successful run, `leads:{id}` holds the record |
| Pipeline.SuccessfulRunStoresLead | backend/agents/pipeline.py:35-40 | `leads:{id}` becomes its previous fields merged with the synthesized fields (which win), and the reply is the synthesized fields plus `id` |
| Pipeline.NoLeadRecordOnFailure | backend/agents/pipeline.py:28-36 | a run that raises leaves every `leads:*` hash as it was |
| Pipeline.StagedStatuses | backend/agents/pipeline.py:26-30 | `mining` then `validating` are published in order, and progress is left at 0.5 |
| Pipeline.FinishStatuses | backend/agents/pipeline.py:37-39 | the lead id is pushed at the head of the job's lead list, then `complete` at 1.0 is merged and published |
| Pipeline.LeadWriteKeepsJob | backend/agents/pipeline.py:36 | writing the lead leaves the job's hash, lead list and channel alone |
| Pipeline.CompletedStatuses | backend/agents/pipeline.py:26-39 | a completed run publishes exactly `mining`, `validating` and `complete` in that order and ends `complete` at 1.0 |
| Pipeline.SuccessfulRunStatuses | backend/agents/pipeline.py:26-39 | with a job, a successful run publishes `mining` (0.2), `validating` (0.5) and `complete` (1.0), in that order and nothing else |
| Pipeline.StatusesMerged | backend/agents/pipeline.py:26-39 | the merged success mappings leave the job `complete` at 1.0 and keep its other fields |
| Pipeline.FailedRunStatuses | backend/agents/pipeline.py:41-44 | a run that raises publishes the stages reached and then `failed`; the job ends `failed` with the error, and progress stays at the last stage's value |
| Pipeline.NoJobTouchesOnlyTheLead | backend/agents/pipeline.py:24-39 | without a job, no job hash, list or channel is touched; only the lead record is written, and only on success |
| Pipeline.JobKeyIsNotLeadKey | backend/agents/pipeline.py:24-36 | a job key never collides with a lead key |
| JobsApi.ProcessLeadAsWritten | backend/worker.py:9-14 | `process_lead` as written raises the constructor's keyword error before writing anything |
| JobsApi.ProcessLead | backend/worker.py:9-14 | the intended `process_lead` returns exactly when no stage raises, re-raises a stage's fault unchanged, and on success writes `complete` once more |
| JobsApi.CompleteAgain | backend/worker.py:12-13 | the extra `complete` write publishes one more snapshot and keeps the job's fields |
| JobsApi.ProcessLeadEffects | backend/worker.py:9-14 | one lead without a fault publishes its four snapshots, pushes its id and leaves the job `complete` |
| JobsApi.ProcessLeadKeepsFields | backend/worker.py:9-14 | processing a lead never removes a field from the job's hash |
| JobsApi.FailedLeadKeepsFields | backend/agents/pipeline.py:41-44 | a lead that raises keeps every job field |
| JobsApi.CompletedLeadKeepsFields | backend/worker.py:12-13 | a completed lead keeps every job field |
| JobsApi.ProcessLeadFailureMarksJob | backend/agents/pipeline.py:41-44 | a lead that raises leaves the job `failed` |
| JobsApi.ProcessLeadPromises | backend/worker.py:9-14 | the intended `process_lead` raises exactly at faults, keeps job fields and completes leads |
| JobsApi.ProcessLeadKeepsJobFields | backend/worker.py:9-14 | for every store and lead, job fields are kept and a fault leaves the job `failed` |
| JobsApi.ProcessLeadCompletesLeads | backend/worker.py:9-14 | for every store and lead, a fault-free lead publishes its snapshots, pushes its id and completes the job |
| JobsApi.LeadIds | backend/agents/pipeline.py:35 | there is one non-empty lead id per lead, in lead order |
| JobsApi.ProcessAll | backend/api/jobs.py:48-49 | the inline loop processes leads in list order and stops at the first lead that raises, reporting its message |
| JobsApi.ProcessAllStopsAtFirstFault | backend/api/jobs.py:48-49 | the inline loop succeeds exactly when no lead raises; otherwise it reports the first fault's message |
| JobsApi.ProcessAllEffects | backend/api/jobs.py:48-49 | without faults, each lead's four snapshots are published in turn, and the lead ids are pushed most recent first |
| JobsApi.ProcessAllKeepsJobFields | backend/api/jobs.py:48-49 | the inline loop never removes a field from the job's hash |
| JobsApi.EnqueueWith | backend/api/jobs.py:34-51 | no leads is a 400 and nothing is written; otherwise the job is `queued` at 0.0 before any lead; a task queue replies with the id; the inline path replies with the id exactly when no lead raises, and otherwise gives the server's plain 500 "Internal Server Error" |
| JobsApi.EnqueueAsWritten | backend/api/jobs.py:34-51 | with `process_lead` as written, inline enqueue of any leads is a 500 "Internal Server Error" after the job was queued |
| JobsApi.Enqueue | backend/api/jobs.py:34-51 | with the intended `process_lead`, inline enqueue replies with the id exactly when no lead raises, and otherwise gives a 500 |
| JobsApi.InlineEnqueueAsWrittenStrandsJob | backend/worker.py:10 | as written, the inline loop fails at the first lead with the constructor's keyword error; enqueue answers 500 "Internal Server Error", the job stays `queued` and no lead record is written |
| JobsApi.InlineEnqueueCompletes | backend/api/jobs.py:39-51 | intended inline enqueue replies with the id; the job ends `complete`, its events are `queued` plus four snapshots per lead, and its lead list holds every lead id, most recent first |
| JobsApi.InlineStatusRevisitsMining | backend/api/jobs.py:48-49 | job status is not monotone: with two leads, a `complete` snapshot is followed by `mining` |
| JobsApi.LeadEventsTwice | backend/api/jobs.py:48-49 | in two leads' events, the first lead's last `complete` is followed by the next lead's `mining` |
| JobsApi.EnqueuedJobIsFound | backend/api/jobs.py:34-59 | an enqueued job is always found by `status`, whatever path it took and whether a lead raised |
| JobsApi.JobStatus | backend/api/jobs.py:54-59 | `status` is a 404 exactly when the job hash is empty or absent; otherwise it is the job hash decoded |
| JobsApi.Records | backend/api/jobs.py:74-78 | only non-empty hashes become items, each decoded, and every non-empty one does become an item |
| JobsApi.RecordsOnePerKey | backend/api/jobs.py:74-78 | one item per key with a non-empty hash, in key order: item `i` is the `i`-th such key's hash, decoded |
| JobsApi.Leads | backend/api/jobs.py:62-80 | `total` is the distinct-key count and a page holds at most `size` items; the items are exactly the decoded non-empty `leads:*` hashes of the page's keys |
| JobsApi.LeadsTotalCountsStoredLeads | backend/api/jobs.py:66-71 | on a well-formed store, `total` counts the stored `leads:*` hashes |
| JobsApi.KeyOnPage | backend/api/jobs.py:64-72 | item `j` of page `p` is key `(p-1)*size + j` |
| JobsApi.SliceAt | backend/api/jobs.py:72 | gives position `j` of the slice `keys[start:start + size]` |
| JobsApi.KeyIsOnItsPage | backend/api/jobs.py:64-72 | with a positive size, every key is on exactly the page its position determines |
| JobsApi.Emitted | backend/api/jobs.py:88-96 | there are at most as many events as polls, none of them empty, and only the last may be terminal |
| JobsApi.StreamEvents | backend/api/jobs.py:88-96 | the generator emits at most 120 events, exactly those of the poll sequence |
| JobsApi.StreamWithin | backend/api/jobs.py:89-96 | the generator's loop, for any number of polls, sends exactly the events `Emitted` describes: every non-empty read, decoded, up to and including the first terminal one |
| JobsApi.EmittedStep | backend/api/jobs.py:90-95 | an empty read sends nothing, a terminal read is the last event, and any other read is sent and the loop continues |
| JobsApi.EmittedWithoutTerminal | backend/api/jobs.py:89-96 | until a terminal status appears, the stream is exactly the non-empty reads, decoded |
| JobsApi.EmittedStopsAtTerminal | backend/api/jobs.py:93-95 | a terminal snapshot read within the budget is the last event sent |
| JobsApi.EmittedAsWritten | backend/api/jobs.py:88-96 | as written, for text or bytes field names, at most as many events as polls are sent (the two lemmas below pin down both cases) |
| JobsApi.AsWrittenWithTextNames | backend/api/jobs.py:93-95 | with text field names the generator as written is the intended stream |
| JobsApi.AsWrittenWithBytesNames | backend/api/jobs.py:93-95 | with bytes field names `data.get("status")` never finds the status, so every non-empty read within the budget is sent |
| JobsApi.RealClientStreamIgnoresCompletion | backend/api/jobs.py:89-95 | with the real client, a finished job (status `complete` or `failed`) is sent 120 times where the intended stream sends it once |
| WorkspacesApi.TokenCheck | backend/api/workspaces.py:34-37 | with no token configured every request passes; otherwise exactly the requests carrying the token pass |
| WorkspacesApi.OrEmpty | backend/api/workspaces.py:47-50 | `None` becomes `""` and any other value is kept |
| WorkspacesApi.ChosenId | backend/api/workspaces.py:45 | the requested id when non-empty, else the fresh id |
| WorkspacesApi.RequestMapping | backend/api/workspaces.py:46-51 | the stored mapping has exactly `provider`, `openai_key`, `gemini_key` and `tavily_key`, all text |
| WorkspacesApi.RequestMappingFields | backend/api/workspaces.py:46-51 | `provider` comes from `keys.provider` and never from the top-level provider; missing keys become `""` |
| WorkspacesApi.AddWorkspace | backend/api/workspaces.py:40-64 | a wrong token is a 401 and nothing is written; otherwise create runs and replies `{workspace_id: id}`, and a create error becomes a 500 with its message |
| WorkspacesApi.AddWorkspaceStoresMapping | backend/api/workspaces.py:45-60 | on a free id the request mapping is stored and the reply names the id |
| WorkspacesApi.AddWorkspaceOnExistingId | backend/api/workspaces.py:57-60 | on an existing id the reply is the same and the record is kept |
| WorkspacesApi.MissingMessageSaysNotFound | backend/api/workspaces.py:100-104 | the manager's missing-workspace message contains "not found" |
| WorkspacesApi.ErrorResponse | backend/api/workspaces.py:100-128 | an error whose text contains "not found" is a 404; every other error is a 500 with "Failed to ... workspace: " |
| WorkspacesApi.ListWorkspaces | backend/api/workspaces.py:67-83 | after the token check, the reply is the manager's listing and the store is unchanged |
| WorkspacesApi.GetWorkspaceDetail | backend/api/workspaces.py:86-104 | after the token check, the reply is the record, or a 404 or 500 as the error says |
| WorkspacesApi.GetMissingIs404 | backend/api/workspaces.py:100-104 | a workspace without a record is a 404 and never a 500 |
| WorkspacesApi.DeleteWorkspaceEndpoint | backend/api/workspaces.py:107-128 | a successful delete replies "Workspace {id} deleted successfully"; a `False` reply is a 500 "Delete operation failed"; an error is a 404 or 500 as its text says |
| WorkspacesApi.DeleteEndpointTwice | backend/api/workspaces.py:107-128 | deleting through the endpoint succeeds once; a second delete and a later get are both 404 |
| WorkspacesApi.WrongTokenRefusedEverywhere | backend/api/workspaces.py:34-37 | every endpoint refuses a wrong token with 401 and leaves the store alone |
| ListingFix.ListKeys | backend/core/workspace_listing_fix.py:108-119 | raises the wrong-type error exactly when a selected key is not a hash; otherwise the result is the listing entries of the keys |
| ListingFix.ListKeysOnePerKey | backend/core/workspace_listing_fix.py:108-119 | when it succeeds, there is exactly one entry per key with a non-empty hash, in key order, decoded with that key's id |
| ListingFix.ListByPattern | backend/core/workspace_listing_fix.py:102-121 | raises exactly when the pattern matches a non-hash key; otherwise every matched non-empty hash yields an entry, decoded with the id the given derivation takes from its key, and nothing else does |
| ListingFix.ListByPatternOnePerKey | backend/core/workspace_listing_fix.py:102-121 | when it succeeds, exactly one entry per matched key with a non-empty hash, in the order `KEYS` returns them; on a well-formed store no key is matched twice |
| ListingFix.WorkspaceRelatedIsOneSubstring | backend/core/workspace_listing_fix.py:133 | the filter's "workspaces" test never decides anything beyond its "workspace" test |
| ListingFix.ListAllAndFilter | backend/core/workspace_listing_fix.py:123-145 | considers only keys containing "workspace" in any case, raises exactly when one is not a hash, and otherwise lists exactly the non-empty ones |
| ListingFix.FirstNonEmpty | backend/core/workspace_listing_fix.py:88-100 | the result is the first non-empty successful outcome, skipping raising and empty ones, or `[]` when none qualifies |
| ListingFix.FoundLater | backend/core/workspace_listing_fix.py:88-100 | an outcome found after an unusable head is the first usable one of the whole list |
| ListingFix.Approaches | backend/core/workspace_listing_fix.py:77-86 | the four approaches, in order |
| ListingFix.FixWorkspaceListing | backend/core/workspace_listing_fix.py:72-100 | the fixed listing is `[]` exactly when every approach raises or is empty; otherwise it is the result of an approach that succeeded non-empty, with every earlier approach raising or empty |
| ListingFix.FixWorkspaceListingAsWritten | backend/core/workspace_listing_fix.py:72-145 | the same choice among the approaches as written, whose ids come from `key.split(":")[1]` |
| ListingFix.FixPrefersManagerListing | backend/core/workspace_listing_fix.py:77-94 | when the manager's pattern finds records, the fixed listing is the manager's own listing |
| ListingFix.FixAsWrittenPrefersManagerListing | backend/core/workspace_listing_fix.py:77-121 | as written, when the manager's pattern finds records, the fixed listing is the manager's listing as written |
| ListingFix.FixListsOnlyStoredRecords | backend/core/workspace_listing_fix.py:72-145 | every entry of the fixed listing is a stored non-empty hash, decoded with its key's id |
| ListingFix.QueueMatchesSubstringPattern | backend/core/workspace_listing_fix.py:83 | the operation queue's key matches `*workspace*` |
| ListingFix.QueueIsWorkspaceRelated | backend/core/workspace_listing_fix.py:133 | the operation queue's key passes the filter |
| ListingFix.OperationQueueBreaksBroadApproaches | backend/core/workspace_listing_fix.py:83-85 | once the operation queue exists, the substring approach and the filtering approach both raise |
| RateLimiter.Min | backend/core/rate_limiter.py:26 | Python's `min` is the smaller of the two, and one of them |
| RateLimiter.Available | backend/core/rate_limiter.py:24-27 | the refill is `min(capacity, tokens + elapsed*rate)` |
| RateLimiter.Consume | backend/core/rate_limiter.py:22-31 | succeeds exactly when the refilled tokens cover the amount, and then subtracts it; a failure keeps the refilled tokens; `updated_at` becomes now |
| RateLimiter.RefillKeepsTokens | backend/core/rate_limiter.py:24-27 | waiting never costs tokens and never exceeds capacity |
| RateLimiter.ConsumeKeepsBounds | backend/core/rate_limiter.py:18-31 | with a non-negative amount and rate and time that does not run backwards, `0 <= tokens <= capacity` is preserved |
| RateLimiter.OversizedRequestRefused | backend/core/rate_limiter.py:26-31 | a request for more than the capacity is always refused |
| RateLimiter.BurstIsBounded | backend/core/rate_limiter.py:22-31 | two requests at the same instant are both granted only if the available tokens cover both |
| RateLimiter.GetBucket | backend/core/rate_limiter.py:44-47 | the key's bucket is made full on first use and reused afterwards |
| RateLimiter.Allow | backend/core/rate_limiter.py:44-51 | `allow` grants exactly when the key's refilled tokens cover the amount, the key's bucket becomes the consumed bucket, and every other key's bucket is unchanged |
| RateLimiter.FirstRequestFindsFullBucket | backend/core/rate_limiter.py:15-51 | a first request is granted exactly when it asks for at most the capacity |
| RateLimiter.KeysAreIndependent | backend/core/rate_limiter.py:44-51 | a request on one key never changes what another key is told |
| RateLimiter.AllowKeepsHealthy | backend/core/rate_limiter.py:15-51 | requests for non-negative amounts keep every bucket between empty and full |

## Left out

- Connection management (`get_client`, `_build_pool`, `_get_pool`, `ping`) is left out. It is environment reads and network I/O; the model is a single store state.
- Key expiry (`EX`, `EXPIRE`, `TTL`) is not modelled as a clock. The only expiry modelled is lock expiry, through the explicit transition `Locks.Lapse`.
- `cleanup_expired_operations` is left out. Its only effect depends on keys vanishing concurrently.
- `_get_operation_result` is left out. No modelled path calls it.
- Concurrency is left out: multi-process interleaving and the asyncio lock inside `TokenBucket`. Other clients' effect during the create lock's retry pause is the parameter `sleep`.
- UUIDs, lock tokens, timestamps and the monotonic clock are parameters. Published JSON snapshots are opaque values.
- HTTP transport, FastAPI routing and JSON bodies are left out. Every endpoint is a function from store and request to store and `Response`.
- The `rq` queue path of `enqueue` is modelled only as "the leads are handed over". The queue itself is not modelled.
- Workspaces.ListWithoutLock: keys matching `workspaces:*:keys` that are not hashes are not modelled. No command of the manager writes such a key.
- The diagnostic endpoints (`/workspaces/fix`, `/workspaces/investigate`, `/workspaces/debug`) and `investigate_key_patterns` are left out. They are printing and probing. GET `/workspaces/fix` is declared after `/workspaces/{workspace_id}`, so the detail route answers it first.
- Printed output and logging are left out.
- Python floats are modelled as Dafny `real`, without rounding.
- Redis `KEYS` enumeration order is modelled as hash insertion order. Redis gives no order.
- RateLimiter.Allow: a new bucket is created with `updated_at` equal to the instant of the request, with no gap between creation and consumption. Any gap is refilled up to a capacity the bucket already holds, so it makes no difference.
- Job-status monotonicity is not claimed because it does not hold. `JobsApi.InlineStatusRevisitsMining` shows the counterexample.
- Valkey.HSet: FakeValkey creates an empty hash for an empty `hset`, and the model follows it. Redis would reject the command.
- Valkey.SetJobStatus: a failed publish is the parameter `delivered`. Why it fails is not modelled.
- Valkey.GlobKeys: only hash keys are enumerated. A string or list key that the pattern matches is accounted for by `ListingFix.WrongTypeAmong`, which makes `hgetall` on it raise.
- Text.Lower: lower-cases ASCII letters only. Python's `str.lower` also maps non-ASCII letters, so `ListingFix.ListAllAndFilter` and `Agents.Wedge` are exact only for ASCII keys and signals.
- Text.ParseIntToString: `int()` also accepts non-ASCII decimal digits, such as Arabic-Indic ones; the model rejects them.
- Agents.Lead: a lead is a `map<string, string>`. JSON `null`, numbers and lists in a request body are not representable, so `lead.get("company")` is always text or absent.
- JobsApi.ProcessAll is modelled against any processor that keeps the promises `JobsApi.ProcessLeadPromises` proves. Its contract is stated in those terms.

## Findings

| source | as written | input that shows it | evidently intended | confidence | as-written member | corrected member |
|---|---|---|---|---|---|---|
| backend/core/distributed_workspaces.py:226-227 | the listing takes the id as `key.split(":")[1]` | a workspace created with id `team:a` is listed with id `team` | the id is the text between `workspaces:` and `:keys` | not executed | Workspaces.ListingAsWrittenTruncatesColonId | Workspaces.ListWithoutLock |
| backend/worker.py:10 | `AgentPipeline(workspace=workspace)`, while the constructor's only parameter is `workspace_id` (backend/agents/pipeline.py:17) | any inline `enqueue` with one lead: the constructor raises `TypeError`, the reply is a 500 "Internal Server Error", and the job stays `queued` | the pipeline is built with the workspace id, and the job completes | not executed | JobsApi.InlineEnqueueAsWrittenStrandsJob | JobsApi.InlineEnqueueCompletes |
| backend/api/jobs.py:93-95 | the stop test reads `data.get("status")`, but the real client (backend/core/valkey.py:62) is built without `decode_responses`, so its field names are bytes | a job that has already failed: each of the 120 polls returns `{b"status": b"failed", …}` and is sent | the stream stops after the first terminal snapshot | not executed | JobsApi.RealClientStreamIgnoresCompletion | JobsApi.EmittedStopsAtTerminal |

For the first finding, the workspace listing and the fallback listing both use the corrected
derivation, `Workspaces.KeyId`; `Workspaces.ListWithoutLockAsWritten` and
`ListingFix.FixWorkspaceListingAsWritten` keep the behaviour as written. For the second,
`JobsApi.Enqueue` uses the corrected `JobsApi.ProcessLead`, and `JobsApi.EnqueueAsWritten` keeps
the behaviour as written. For the third, `JobsApi.Emitted` is the stream with the stop test
that evidently was intended, and `JobsApi.EmittedAsWritten` keeps the behaviour as written.
