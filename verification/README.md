# Databricks provider: a verified model

This project models the hard core of a Kubernetes/kcp provider for Databricks and of its portal, and proves what that
core is meant to guarantee. `dafny verify dfyconfig.toml` checks everything.

| files | component |
|---|---|
| `Conditions`, `ApiServer`, `Controllers`, `Readiness`, `ReadyChain` | The three reconcilers, optimistic status writes, and the portal's reading of a status, as one step system. A collection keeps every version it ever stored and a reconcile or query may act on any of them, which covers all interleavings of snapshot reads with other writers, and stale caches. |
| `QueryGate`, `HostChange`, `QuerySql`, `LikePattern` | The query gate chain, the SQL and LIKE printers with independent readers, the end-to-end theorem that ties a statement to a validation, and what a moved connection does to it. |
| `ResultBound`, `McpBound`, `ListTables` | Shrinking results until their encoding fits, with an abstract encoder for structure and a concrete JSON writer (section 7 of RFC 8259 plus Go's extra escapes) for byte bounds. |
| `ClientCache`, `ClientFactory`, `SliceAuthority` | The client caches held in unordered maps, refined to a recency list; caller isolation; shard resolution with cached bindings. |
| `Registration`, `RegistrationFlow`, `RegistrationTree`, `BranchSelection` | Concurrent registrations against one store, the portal's retry merging, and lazy branch selection: a recursive walk refined from a flat one. |
| `LatestRefresh`, `CoalescedRead`, `Paging` | The asynchronous controllers over all event sequences, and token-paged walks. |
| `Text`, `Sorting` | Shared vocabulary: results, trimming and string order, the limits of the query contract, lists that keep some elements of another in order, and a stable sort. |

Code that updates state step by step is modelled by methods and classes, each proved equal to a function of its inputs;
the theorems are lemmas about those functions over all inputs, runs or event sequences.

Where the code and its own words disagree, the model follows the code:

- `tenant/authority.go:207-210` says that a miss forces a refresh so that a fresh shard is picked up at once. The code
  refreshes only while no shard is known (`tenant/authority.go:170-177` and `115-123`), so a known list never changes again
  (`EnsureShards`). `FreshShardIsMissed` is an input on which the caller gets a client on the wrong shard, and
  `KnownListServesIff` says when that cannot happen: exactly when the known list is still the published one. The pruning in
  `RefreshShards` is proved for the general case anyway.
- `portal/src/registrationTree.ts:130-133` promises that nothing is exposed until the subtree is complete. A page for a
  node with the empty id goes to the roots instead (`portal/src/registrationTree.ts:48-60`), so at that id the code
  reports `complete: true` with nothing loaded below (`ExhaustEmptyId`); `RegistrationTree.Layered` therefore asks that
  no node has it.
- `backend/validation.go:248-251` says that validation and query_table cannot silently disagree about a table's columns.
  Readiness of a table speaks of its own generation only: after a connection is moved to another host and validated again,
  and until the table is reconciled again, its queries run against the new host on the schema of the old one
  (`MovedHostKeepsStatement`, `StaleHostRun`). `SameGenerationSameHost` says when the hosts do agree.

## Model

| member | source | states |
|---|---|---|
| Conditions.PutThenFind | controller/shared/shared.go:44-55 | Setting a condition is read back by its kind and disturbs no other kind |
| Conditions.ConditionList.Set | controller/shared/shared.go:44-55 | The in-place search-and-replace equals the specification that replaces the first condition of the kind or appends |
| ApiServer.AcceptedReadIsLive | controller/table/controller.go:219-221 | A status write that the server accepts was computed from the object that is still live, whatever happened between read and write |
| ApiServer.WriteKeepsInv | controller/table/controller.go:219-221 | A compare-and-swap status write keeps the store invariant: one spec per uid and generation, generations never above the live one, one version per revision |
| Controllers.RetrySoonIffTransient | backend/validation_reason.go:35-70 | A validator failure is requeued after 15s exactly when it is transient (408, 429, 5xx, network or deadline, and neither canceled nor an unsupported type); an unsupported table type alone is not requeued |
| Controllers.ReasonIff | backend/validation_reason.go:35-70 | Each reason says what the failure was: unavailable for the transient ones, access denied for 401 and 403, not found for 404, and an unsupported type |
| Controllers.ConnectionVerdictIff | controller/connection/controller.go:75-115 | A connection passes exactly when every check does; otherwise the reason names the first that does not |
| Controllers.WarehouseVerdictIff | controller/warehouse/controller.go:109-163 | The same for warehouses |
| Controllers.TableVerdictIff | controller/table/controller.go:145-207 | The same for tables |
| Readiness.RetryingShownIffTransient | portal/src/api.ts:416-435 | Once a validator failure is committed, the portal shows "Retrying" if and only if the failure was transient |
| Controllers.ConnectionObject.Reconcile | controller/connection/controller.go:75-115 | The in-place status after a reconcile and its requeue delay are those of the verdict over what was read |
| Controllers.ConnectionObject.FailAfter | controller/connection/controller.go:128-137 | Failure clears the workspace, stamps the generation and fails both conditions with one reason |
| Controllers.WarehouseObject.Reconcile | controller/warehouse/controller.go:109-163 | The same for warehouses, including the connection's readiness and auth type |
| Controllers.WarehouseObject.FailAfter | controller/warehouse/controller.go:176-184 | Failure clears the state, stamps the generation and fails Ready |
| Controllers.TableObject.Reconcile | controller/table/controller.go:145-223 | The same for tables: dependency checks in order, the first 64 columns, reason and delay |
| Controllers.TableObject.FailAfter | controller/table/controller.go:249-261 | Failure keeps the cached schema only when it was observed for this generation |
| Readiness.RetryIsTransient | controller/table/controller.go:225-233 | Each reconciler asks for the 15s retry exactly for the reasons the portal calls retryable |
| Readiness.DelayIs | controller/table/controller.go:225-233 | A reconcile comes back after 15s for a retryable reason, never by itself for a missing validator, an unsupported table type or an unsupported auth type of a connection, and after 300s otherwise |
| Readiness.StepKeepsInv | controller/table/controller.go:145-261 | One invariant over tables, warehouses, connections, validations and commits is kept by every edit and every reconcile commit |
| Readiness.RunKeepsInv | controller/table/controller.go:145-261 | The invariant holds after every legal run |
| Readiness.CachedColumnsAreValidated | controller/table/controller.go:207-218 | In every reachable world, cached columns are the first min(n, 64) of the n columns the validator returned for the one spec with generation observedGeneration |
| Readiness.PassingReconcileCaches | controller/table/controller.go:207-243 | A committed passing reconcile makes the table ready with the first min(n, 64) validated columns, a fresh refresh time, and the truncated reason exactly when n exceeds 64 |
| Readiness.FailedReconcileKeepsOwnGeneration | controller/table/controller.go:249-261 | A committed failure leaves the table not ready, with its reason, and keeps columns and refresh time exactly when they belong to the same generation |
| Readiness.WarehouseReconcileShows | controller/warehouse/controller.go:152-184 | A committed warehouse reconcile shows the validated state and is ready, or shows no state and the reason of its failure |
| Readiness.ConnectionReconcileShows | controller/connection/controller.go:104-137 | The same for a connection and its workspace, under both conditions |
| Readiness.ReadyTableHasReadyChain | controller/table/controller.go:157-218 | A version that passes the readiness gate was validated, as its very spec, through a ready warehouse on the same connection and a validated, ready PAT connection |
| ReadyChain.StepKeepsChain | controller/warehouse/controller.go:109-163 | A second invariant, kept by every edit and commit: ready connections use PAT, and ready warehouses were validated, as their very spec, through a ready PAT connection |
| ReadyChain.ReadyConnectionIsPat | controller/connection/controller.go:86-88 | In every reachable world a connection that passes the gate has the supported auth type |
| ReadyChain.TableAuthExitUnreachable | controller/table/controller.go:175-177 | So the table controller never fails with an unsupported auth type behind a ready connection |
| ReadyChain.ReadyWarehouseHasReadyConnection | controller/warehouse/controller.go:118-163 | A ready warehouse was validated, as its very spec, through a stored, ready PAT connection of its reference |
| ReadyChain.ReadyTableChain | controller/table/controller.go:157-218 | The chain behind a ready table is transitive: the warehouse version it was validated through was itself validated through a ready PAT connection of the same name |
| Readiness.TablePortalAgrees | portal/src/api.ts:416-435 | For every reachable table the portal's "Ready" is the Go gate, "Retrying" holds exactly when the last commit of this generation asked for the 15s retry, "Pending" exactly when this generation has no commit, and "needs attention" otherwise |
| Readiness.WarehousePortalAgrees | portal/src/api.ts:416-435 | The same for warehouses |
| Readiness.ConnectionPortalAgrees | portal/src/api.ts:416-435 | The portal reads only Validated, yet agrees with the gate on Validated and Ready, and on retries |
| Portal.PortalExceedsGateIff | portal/src/api.ts:416-435 | On arbitrary statuses the Go gate implies the portal's "Ready", and the portal exceeds it exactly when the status is ahead of the object or its condition lags the status |
| SchemaProbe.ColumnsFromManifest | backend/validation.go:348-362 | The manifest loop computes the trimmed, non-blank columns in order |
| SchemaProbe.ManifestIsExact | backend/validation.go:348-362 | Exactly the columns with a name and a type, in manifest order, with the type text or else the type name |
| Text.TrimRemovesSpaces | backend/validation.go:348-362 | Trimming cuts spaces off both ends and nothing else |
| SchemaProbe.ManifestNamesTrimmed | backend/validation.go:348-362 | Every listed column has a trimmed non-empty name and a type |
| SchemaProbe.ValidateTable | backend/validation.go:260-273 | No schema for a reference SQL cannot name nor for an empty manifest; an accepted one is non-empty with non-blank names |
| QueryGate.QueryTable | tenant/action.go:72-161 | The sequence of identity, name, request and access checks, reads, gates and early exits computes the outcome, first failing check first |
| QueryGate.CheckRequest | queryapi/query.go:113-136 | Limit, column count, identifiers and duplicates are checked in this order |
| QueryGate.RequestErrorIff | queryapi/query.go:113-136 | Which error a request meets: a limit outside 0 to 100, more than 64 columns, or the first column that cannot be named or was named before; and none exactly for a good request |
| QueryGate.ReportsFirstFailure | tenant/action.go:72-161 | Each error is reported exactly when its own check fails and no check ahead of it does, in the documented order; a statement exactly when none fails |
| QueryGate.ReachesBackendIff | tenant/action.go:72-161 | In every reachable world a query reaches the backend if and only if the caller is identified and granted access, the table name is legal, the request is good, the chain is ready and belongs together, the process can serve it, and every column is in the cached schema; auth type and SQL name follow |
| QueryGate.ReadyTableHasValidRef | backend/validation.go:260-263 | A ready table of a reachable world has a catalog, schema and table that SQL can name |
| QueryGate.OnlySchemaErrors | queryapi/query.go:327-373 | Of all statement errors only a column outside the cached schema can reach a caller; the others are unreachable behind the request checks and the readiness gate |
| QueryGate.ProjectionIsValidated | tenant/action.go:114-161 | Over every run and whatever stale versions a query reads: a statement that reaches the backend names exactly the table of a recorded validation of the same spec, and every projected column is among the first 64 columns that validation returned |
| QueryGate.ValidatedColumnsAreServed | tenant/action.go:114-161 | And conversely: for a ready table, behind good call, request and chain, a projection is served exactly when every column is among the first 64 that the validation behind the table returned |
| HostChange.SameGenerationSameHost | tenant/action.go:131-134 | The connection a query uses has the name of the one its schema was validated through, and its spec and host too when uid and generation are the same |
| HostChange.MovedHostKeepsStatement | tenant/action.go:114-161 | From every reachable world, moving a live ready connection to another host and validating it again lets every query through that went through before, with the same statement and no new table validation |
| HostChange.StaleHostRun | tenant/action.go:114-161 | A run, for any two hosts, after which a query reaches the backend of one host although every validation was made on the other |
| QuerySql.QuoteIdent | queryapi/query.go:391-404 | The fast path for plain identifiers gives the same text as doubling backticks |
| QuerySql.SelectList | queryapi/query.go:347-371 | The projection loop yields the quoted list or the first column error |
| QuerySql.SelectTableSQL | queryapi/query.go:327-373 | The builder computes the specified statement or error |
| QuerySql.AcceptedIff | queryapi/query.go:327-373 | A statement is produced exactly for a valid three-part name, a limit in range, and at most 64 valid, distinct, allowed columns |
| QuerySql.RefusedIff | queryapi/query.go:327-373 | Which error is returned: limit, number of columns, table name, then the leftmost column that cannot be named, is outside the schema, or repeats |
| QuerySql.ReadListBack | queryapi/query.go:347-371 | A backtick lexer recovers any list of identifiers, whatever they contain |
| QuerySql.StatementReadsBack | queryapi/query.go:347-404 | An independent reader recovers projection, three-part name and limit from any statement, for identifiers with backticks, dots, commas or " FROM " |
| QuerySql.AcceptedStatementReadsBack | queryapi/query.go:327-373 | Any accepted statement reads back as its inputs with the effective limit |
| QuerySql.ProjectionWithinSchema | queryapi/query.go:341-371 | With a non-empty allowed list of non-blank names, every accepted column is allowed |
| LikePattern.SuccessiveIsCharacterwise | backend/validation.go:429-433 | The three successive replacements equal one character-wise escape |
| LikePattern.EscapeLikeIsLiteral | backend/validation.go:429-433 | Under SQL LIKE with backslash as the escape (section 8.5 of ISO/IEC 9075-2) the escaped pattern matches a string if and only if it is the original value |
| LikePattern.UnescapedIsLiteralIff | backend/validation.go:405-406 | Left unescaped, a value selects exactly itself if and only if it holds no percent sign, underscore or backslash |
| ResultBound.NormalizeResultShape | queryapi/query.go:185-220 | The shaping loops compute the normal form, the one shape that `ShapeOf` describes |
| ResultBound.DedupIsExact | queryapi/query.go:185-197 | Exactly the first column of each name is kept, in input order |
| ResultBound.NormalizeIsShape | queryapi/query.go:185-220 | A shaped result has the first min(d, 64) of the d distinct names, each as the first input column of that name; the first min(n, 100) of n rows with the cells of those columns; and it is flagged exactly when the input was or a column, row or cell was lost |
| ResultBound.ShapeIsUnique | queryapi/query.go:185-220 | No other result has these properties |
| ResultBound.RowsForColumns | queryapi/query.go:222-248 | Each rebuilt row has exactly the column keys |
| ResultBound.BoundQueryResultWithin | queryapi/query.go:151-183 | The shrinking loop computes the specified bound |
| ResultBound.BoundIsLongest | queryapi/query.go:151-183 | For a budget of 1 to 65536, anything else meaning 65536, and any encoder: the result is the longest row prefix of the shaped input that fits, else the longest column prefix, else nothing fits and it is the smallest result |
| ResultBound.BoundShape | queryapi/query.go:185-248 | Distinct columns, exact row keys, input cells unchanged; truncated is false only when no column, row or cell was lost |
| ResultBound.BoundIdempotent | queryapi/query.go:143-183 | Bounding again at the same or a larger budget changes nothing |
| ResultBound.BoundWrapped | actions/actions.go:571-595 | The envelope loop computes the specified wrapped bound, or fails when nothing is left to drop |
| ResultBound.WrappedIsLongest | actions/actions.go:571-595 | Although columns are re-bounded after each drop, the loop keeps the longest row prefix, then the longest column prefix, that fits the whole message |
| JsonText.EscapeNeverShrinks | mcpserver/tools.go:86-106 | JSON string escaping never shortens a text, so the doubly escaped copy is at least as long |
| JsonText.EscapeAtMostSixfold | mcpserver/tools.go:86-106 | Escaping ASCII text grows it at most sixfold |
| JsonText.ToolResultSize | mcpserver/tools.go:91-106 | The tool result is at least as long as the JSON it carries, and at most seven times as long plus 100 for ASCII |
| JsonText.StringReadsBack | mcpserver/tools.go:86-106 | A reader of JSON strings recovers any written string |
| JsonText.EscapedIsHarmless | mcpserver/tools.go:86-106 | A written string holds no control character, no angle bracket, ampersand or Unicode line separator |
| JsonText.HeadReadsBack | mcpserver/tools.go:116-153 | Version, table and all columns are recovered from the JSON of any result, and what is left over is exactly its rows and flag |
| JsonText.ToolResultReadsBack | mcpserver/tools.go:91-106 | The text copy in a tool result reads back as the very JSON that follows as structured content |
| McpBound.BoundMcpQueryOutput | mcpserver/tools.go:116-153 | For every legal table name the measured message, reserve included, is within 65536 bytes on every exit, and the defensive fallback is never needed |
| McpBound.EmptyMessageFits | mcpserver/tools.go:142-151 | The message of an empty result fits for every legal table name and either flag |
| McpBound.AdaptersKeepLongest | mcpserver/tools.go:116-153 | Under the concrete encoder both adapters keep the longest prefixes that fit |
| ListTables.ListingUnique | mcpserver/tools.go:155-158 | A set of tables has one name-sorted listing, so map iteration order cannot matter |
| Text.LessIff | mcpserver/tools.go:155-158 | The order of names is lexicographic: a prefix comes first, otherwise the first difference decides |
| ListTables.BoundedTableMap | mcpserver/tools.go:173-190 | The kept map holds the `limit` smallest names, and the flag says whether any was dropped |
| ListTables.BoundListOutput | mcpserver/tools.go:155-171 | The loop computes the shrunk sorted list |
| ListTables.ShrinkListLongest | mcpserver/tools.go:160-170 | The output is the longest sorted prefix that fits |
| ListTables.ListTablesTool | mcpserver/tools.go:200-219 | The tool's output is the longest fitting prefix of the 256 smallest names, marked truncated whenever a table is missing |
| ListTables.ListingExists | mcpserver/tools.go:155-158 | Every set of tables has the listing the tool is specified by |
| ListMessage.ListMessageFits | mcpserver/tools.go:155-171 | Under the concrete JSON writer the list message, reserve included, is within 65536 bytes on every exit, the empty fallback included |
| ListMessage.ListReadsBack | mcpserver/tools.go:155-171 | A reader recovers any listing from its JSON, flag included, whichever way an empty list is written |
| RecencyList.ApplyKeepsBounded | tenant/client.go:304-373 | Lookups and stores keep keys distinct and at most `capacity` entries |
| RecencyList.HitIff | tenant/client.go:304-333 | A lookup returns a value exactly when an entry with the key and that value has no creation time yet or is younger than the TTL |
| RecencyList.LookupEffect | tenant/client.go:304-333 | A hit makes the entry the most recent and keeps its creation time; an entry that is too old is gone afterwards; no other entry changes |
| RecencyList.StoreEffect | tenant/client.go:335-373 | Storing under a held key returns the held client and makes it the most recent; otherwise the new one is appended and the oldest beyond capacity goes |
| RecencyList.StoreKeepsOwnKey | tenant/client.go:358-373 | The key just stored is the most recent one and never the one evicted |
| RecencyList.RecentSurvives | tenant/client.go:304-373 | After any operations on fewer than `capacity` other keys an entry is still there, unchanged |
| RecencyList.RecentHits | tenant/client.go:304-333 | Then the next lookup hits exactly when the entry has no creation time or was created less than the TTL ago |
| ClientCache.OldestKey | tenant/client.go:446-455 | The minimum search finds a least recently used key in whatever order the map is ranged over |
| ClientCache.OldestIsFirst | tenant/client.go:446-455 | Ticks are distinct, so that key is unique: the front of the recency list |
| ClientCache.TouchRepresented | tenant/client.go:330-332 | Using a key under a fresh tick keeps maps and recency list in step: equal key sets, distinct ticks in list order, none ahead of the clock |
| ClientCache.ClientCache.FromCache | tenant/client.go:304-333 | The map lookup gives the hit or miss of the recency list and its next state |
| ClientCache.ClientCache.StoreClient | tenant/client.go:335-362 | Storing gives the client and the next state of the recency list: an existing client wins, otherwise the oldest beyond capacity goes |
| ClientCache.ClientCache.Evict | tenant/client.go:364-373 | Eviction leaves exactly the newest `capacity` entries |
| ClientFactory.CacheKeyInjective | tenant/client.go:220 | A cache key determines cluster and token digest, although a cluster id may contain a colon |
| ClientFactory.ClientFactory.ClientFrom | tenant/client.go:214-276 | For both kinds of client: the result is the recency list's; a cached one is younger than the TTL, and otherwise it is the one just built; it is for the current host, the requested cluster and a token of the same digest; the other cache is untouched although both share a clock |
| ClientFactory.ClientFactory.ConfigErrorIff | tenant/client.go:235-255 | A client is refused exactly for a cluster that is not one path segment, a blank token, or a factory without a host, the first of these being the error |
| ClientFactory.ClientFactory.SetBaseConfig | tenant/client.go:115-149 | A new host empties both caches; a blank one changes nothing |
| SliceEndpoints.SliceEndpointURLs | tenant/authority.go:251-266 | The loop yields the cleaned URLs, distinct and non-blank |
| SliceEndpoints.FirstExact | tenant/authority.go:251-266 | Every non-blank endpoint URL is listed and nothing else is |
| SliceEndpoints.FirstInOrder | tenant/authority.go:251-266 | URLs keep slice order: reading more endpoints only appends |
| SliceAuthority.CutFindsShard | tenant/authority.go:238-242 | Cutting a client key at its first bar recovers a shard URL that has none |
| SliceAuthority.ClientKeyInjective | tenant/authority.go:136 | A client key names one shard and one cluster, since cluster ids carry no bar |
| SliceAuthority.HostInjective | tenant/authority.go:144-145 | A client's host determines shard and cluster, since a cluster id holds no slash |
| SliceAuthority.ClientJoins | tenant/authority.go:136-155 | Using a client adds it and loses no other, unless 256 are held already, and then all of them |
| SliceAuthority.BoundOnce | tenant/authority.go:162-193 | Resolving a cluster changes no other binding, and binds it exactly when there are several shards to choose from |
| SliceAuthority.SurvivesIff | tenant/authority.go:233-242 | A binding or client survives a changed list exactly when its shard is still listed, and unchanged |
| SliceAuthority.SurvivingBindingAgrees | tenant/authority.go:233-237 | A binding that survives a changed list agrees with a fresh resolution exactly when no shard ahead of it answers too, or there is only one |
| SliceAuthority.SliceAuthority.RefreshShards | tenant/authority.go:211-245 | A refresh either changes nothing or replaces the list and keeps exactly the bindings and clients whose shard is still listed |
| SliceAuthority.SliceAuthority.EnsureShards | tenant/authority.go:170-177 | The list is read only while it is empty; once known it never changes |
| SliceAuthority.SliceAuthority.Ready | tenant/authority.go:111-124 | Ready exactly when a shard is known afterwards |
| SliceAuthority.SliceAuthority.ShardFor | tenant/authority.go:162-193 | A bound cluster resolves to its binding whatever the probe says now; with a fixed probe the cached resolution equals the cache-free one; the next bindings are the old ones plus, for an unbound cluster with several shards, the one just found |
| SliceAuthority.KnownListServesIff | tenant/authority.go:162-193 | The known list resolves a cluster as the published one would, whichever shards answer, if and only if the two lists are the same |
| SliceAuthority.FreshShardIsMissed | tenant/authority.go:162-193 | A witness: with "a" known, "a" and "b" published and only "b" answering, the caller gets a client on "a" |
| SliceAuthority.SliceAuthority.ClientAt | tenant/authority.go:136-155 | The client is the one built for this shard and cluster; the next cache is the old one, or the old one plus it, or it alone once 256 are held |
| SliceAuthority.SliceAuthority.ClusterClient | tenant/authority.go:128-156 | The client returned is for the binding of a bound cluster, and with a fixed probe for the shard a cache-free resolution gives, with the same errors; the next bindings and clients are stated exactly |
| Registration.OnlyWriteIsCreate | tenant/import.go:232-266 | A request changes at most its own run, and writes only by creating an absent name with its own specification |
| Registration.CreationsAreConserved | tenant/import.go:232-266 | Over every interleaving, with edits, deletions and lost replies: "created" reports for a name plus its initial presence are at most its deletions plus its final presence |
| Registration.AtMostOneCreated | tenant/import.go:248-250 | Without deletions at most one run per name reports "created", and none if the name existed |
| Registration.DeletionAllowsSecondCreate | tenant/import.go:248-250 | The bound is sharp: one deletion allows a second "created" |
| Registration.ReportsAgreeWithStore | tenant/import.go:236-266 | Without deletions or edits every "created" and "existing" agrees with the stored specification, every "conflict" differs from it, and nothing stored is lost |
| Registration.NothingElseAppears | tenant/import.go:248-250 | A name that others leave alone appears only with the specification of a run that registers it |
| RegistrationBatch.RegisterOne | tenant/import.go:232-266 | The get, create, get code takes exactly the steps of the protocol model and reports what `Reports` says of the store at each of its requests, an unserved one meaning "failed" |
| RegistrationBatch.ServedReports | tenant/import.go:232-266 | With served requests: "existing" exactly when the get that decides finds the same specification, "conflict" exactly when it finds another, "created" exactly when get and create find the name absent, "failed" exactly when the name vanished between the create and the second get |
| RegistrationBatch.RegisterAll | tenant/import.go:208-211 | One result per item, in item order, each with its run's outcome, which is what the store held at that item's requests |
| RegistrationBatch.BatchIsEvents | tenant/import.go:208-211 | A batch is one of the interleavings, so the protocol theorems apply to it |
| RegistrationBatch.ReplayIsExisting | tenant/import.go:208-211 | Replaying a fully registered batch reports "existing" for each item in order and writes nothing |
| RegistrationBatch.SucceededThenReplay | tenant/import.go:208-211 | A batch that succeeded leaves every item registered, so its replay changes nothing |
| RegistrationBatch.NormalizeItems | tenant/import.go:163-177 | Accepted batches have distinct names in item order; otherwise the first bad item is reported |
| RegistrationFlow.MaterializeRegistrationResults | portal/src/registrationFlow.ts:57-79 | One result per item: the first response entry numbered with its position, else a retryable failure |
| RegistrationFlow.EntrySays | portal/src/registrationFlow.ts:57-79 | State and message are those of the first response entry numbered with the position, the name too unless it is empty; without one the item has failed |
| RegistrationFlow.MergeRegistrationResults | portal/src/registrationFlow.ts:82-91 | The merged list is sorted by index and holds the latest entry per index |
| RegistrationFlow.RetryableExact | portal/src/registrationFlow.ts:93-95 | The retried indices are the failed entries, each once and in order |
| RegistrationFlow.RetryFailed | portal/src/ResourceImportWizard.vue:456-471 | Pressing retry performs one round of the round relation |
| RegistrationFlow.RoundKeepsItems | portal/src/registrationFlow.ts:82-95 | A round keeps one entry per item in index order, never changes a non-failed entry, and gives the b-th failed item the first response entry numbered b |
| RegistrationFlow.RoundsKeepItems | portal/src/registrationFlow.ts:82-95 | Across any number of rounds and any responses: one entry per item, settled entries fixed, failures only shrink |
| RegistrationFlow.SubmissionIsComplete | portal/src/registrationFlow.ts:57-79 | The first submission has one entry per item whatever the response holds |
| RegistrationTree.PathReachesLeaf | portal/src/registrationTree.ts:74-84 | An enabled path that ends in a leaf ends in a selectable leaf |
| RegistrationTree.LeafHasPath | portal/src/registrationTree.ts:74-84 | Every selectable leaf is the end of an enabled path |
| RegistrationTree.LeavesInOrder | portal/src/registrationTree.ts:74-84 | Leaves come in display order: all of one child's before those of the next |
| RegistrationTree.SettledPath | portal/src/registrationTree.ts:92-96 | In a complete branch each enabled path leads to a leaf or a fully loaded branch |
| RegistrationTree.UnsettledPath | portal/src/registrationTree.ts:92-96 | In an incomplete one some enabled path leads to a branch with pages left |
| RegistrationTree.TreeCheckState | portal/src/registrationTree.ts:86-98 | Checked exactly when there are leaves, all selected, and nothing is left to load; unchecked exactly when none is selected |
| RegistrationTree.PageGrows | portal/src/registrationTree.ts:48-60 | A page of deeper nodes keeps the tree layered and changes no finished node |
| RegistrationTree.ChildrenAfterPage | portal/src/registrationTree.ts:48-60 | After a page an id is a child exactly when it was one before or is on the page; the new ones follow the old in the order of their first occurrence, none twice |
| RegistrationTree.SettledStays | portal/src/registrationTree.ts:134-182 | What was complete stays complete while other branches load |
| RegistrationTree.AdditionsAreExact | portal/src/registrationTree.ts:144-148 | The additions compared with the limit are exactly the leaves not selected before, in display order |
| RegistrationTree.AdditionsAreResources | portal/src/registrationTree.ts:144-148 | In a tree, where no node has two parents, no leaf is listed twice, so their number is the number of resources not selected before |
| RegistrationTree.Tree.AppendTreePage | portal/src/registrationTree.ts:48-60 | The loop adds unknown nodes and unlisted ids in page order and updates the parent, the roots, or nothing |
| RegistrationTree.EmptyIdIsNeverLoaded | portal/src/registrationTree.ts:48-60 | Whatever pages are appended without a parent, a node with the empty id keeps its children and stays unfinished |
| BranchSelection.ExhaustEmptyId | portal/src/registrationTree.ts:134-182 | What the code returns at that id: completion as soon as a page names no next one, with the node unchanged and nothing loaded below it |
| BranchSelection.PendingIffUnsettled | portal/src/registrationTree.ts:92-96 | A first unfinished branch in display order exists exactly when something below is still to be loaded |
| BranchSelection.StopIsUnique | portal/src/registrationTree.ts:134-182 | The loader determines the flat walk (load the next page of the first unfinished branch) and the one way in which it ends |
| BranchSelection.CompletesIff | portal/src/registrationTree.ts:134-182 | A call completes if and only if the flat walk settles the branch within the page budget and the limit, without a repeated token or a failed load |
| BranchSelection.DraftIsExact | portal/src/registrationTree.ts:48-60 | The draft holds exactly the given nodes and those of the loaded pages, each as it first appeared with the ids of its own pages appended in order and their last token; nodes without pages are unchanged |
| BranchSelection.CompletedBranchIsExhausted | portal/src/registrationTree.ts:152-172 | On completion every enabled branch below was finished from the start or had its pages loaded up to one that names no next, and its children are exactly those it had and the ids of its pages |
| BranchSelection.ChildrenAfterPages | portal/src/registrationTree.ts:48-60 | After its pages a branch has its first children followed by the ids listed, each where it first occurs |
| BranchSelection.ListedLeafIsSelected | portal/src/registrationTree.ts:152-177 | So nothing shown is missed: on completion every enabled table or warehouse that a page loaded for an enabled branch lists is among the selected leaves |
| BranchSelection.SelectionIsExact | portal/src/registrationTree.ts:174-177 | The new selection is the old one without repetitions, followed by the leaves not selected before in display order |
| BranchSelection.FrontIsPending | portal/src/registrationTree.ts:152-172 | Where the recursion stands, what is pending for the node is what is pending for the whole branch |
| BranchSelection.BranchWalk.LoadPage | portal/src/registrationTree.ts:163-166 | One load extends the flat walk by the draft with exactly that page, or stops for a failed load or an exceeded limit |
| BranchSelection.BranchWalk.LoadPages | portal/src/registrationTree.ts:155-169 | Paging one branch follows the flat walk until the branch is finished, or stops exactly where and why the walk stops |
| BranchSelection.BranchWalk.Visit | portal/src/registrationTree.ts:152-172 | The recursion follows the flat walk until everything below the node is loaded, or stops exactly where and why the walk stops |
| BranchSelection.ExhaustBranchSelection | portal/src/registrationTree.ts:134-182 | All or nothing, and exactly the flat walk: same loads, same stop, same page count, input unchanged; on success the result is the walk's last draft, everything below is loaded, the selection is the old one plus all eligible leaves with at most `remaining` additions, and the branch shows as checked whenever it has a leaf |
| LatestRefresh.Controller.Request | portal/src/refresh.ts:239-264 | A request starts a task, queues a follow-up, or is ignored after a stop |
| LatestRefresh.Controller.Settle | portal/src/refresh.ts:256-263 | Settling releases the lock and starts the queued follow-up |
| LatestRefresh.StateIsExact | portal/src/refresh.ts:231-285 | In every event sequence the four variables are exactly what the events since the running task's start say |
| LatestRefresh.AtMostOneTask | portal/src/refresh.ts:239-264 | A task starts only when none runs or in the step that settles the running one |
| LatestRefresh.CurrentIffUnfenced | portal/src/refresh.ts:239-283 | The running id is current if and only if no foreground request, invalidation or stop came in since it started |
| LatestRefresh.FollowUp | portal/src/refresh.ts:256-263 | Settling starts a follow-up exactly when something was asked during the run and nothing stopped it; foreground exactly when something urgent was |
| LatestRefresh.RequestIsServed | portal/src/refresh.ts:239-263 | No request before a stop is lost: it starts its own task at once, exactly when none runs, or the first settling after it starts a follow-up, a foreground one for a foreground request |
| LatestRefresh.NothingAfterStop | portal/src/refresh.ts:276-283 | After a stop nothing starts and no id is current |
| LatestRefresh.IdsIncrease | portal/src/refresh.ts:251-253 | Ids are never reused, so an older id can never become current again |
| CoalescedRead.Reader.Request | portal/src/refresh.ts:95-116 | A request starts a read, shares the pending one, joins or opens the queue, or is rejected |
| CoalescedRead.Reader.RunQueue | portal/src/refresh.ts:103-114 | The queued callback clears the flag and starts the owed read |
| CoalescedRead.TraceInv | portal/src/refresh.ts:68-124 | In every event sequence, with callbacks as separate steps: queued implies pending and invalidated, and an uninvalidated pending read started after every invalidation |
| CoalescedRead.AtMostOneInFlight | portal/src/refresh.ts:74-92 | At most one read is in flight |
| CoalescedRead.RequestIsFresh | portal/src/refresh.ts:95-119 | A request made after an invalidation never receives a read started before it |
| CoalescedRead.RequestsShare | portal/src/refresh.ts:95-116 | Requests with no invalidation between them share the pending read until its cleanup has run, the queued one, or what the queued one became |
| CoalescedRead.SharedIsInFlight | portal/src/refresh.ts:95-101 | A promise shared at once starts now or is that of the pending read, whose cleanup is still to come |
| CoalescedRead.OwedReadStarts | portal/src/refresh.ts:103-114 | The callback of a queued request starts the new read it owes, unless the reader was stopped; only then is it rejected |
| CoalescedRead.OwedReadIsEnabled | portal/src/refresh.ts:103-114 | That callback waits for the pending read to settle and be cleaned up, and for nothing else |
| CoalescedRead.StopPreventsReads | portal/src/refresh.ts:120-122 | After a stop no read starts and every request is rejected |
| TokenChain.RepeatsEarlier | backend/validation.go:339-343 | On a fixed server everything after a repeated token has been seen before it |
| TokenChain.EndedChainDistinct | backend/validation.go:339-343 | A chain that ends never repeats a token, so the repeated-token check refuses no complete chain |
| TableSummary.GetTableSummary | backend/validation.go:301-346 | The walk stops for the reason it gives, at the page it stopped at, with all tokens before it different |
| TableSummary.OutcomeIsUnique | backend/validation.go:301-346 | The server determines the outcome and the page at which the walk stops |
| TableSummary.FailedIff | backend/validation.go:317-330 | The walk fails exactly when a request within its reach does, with the table on no page before it |
| TableSummary.RepeatedIff | backend/validation.go:339-341 | The repeated-token error occurs exactly when a token repeats within a hundred pages none of which lists the table |
| TableSummary.TooManyIff | backend/validation.go:345 | The page limit is the error exactly when a hundred pages with different tokens go on without the table |
| TableSummary.FoundIffListed | backend/validation.go:301-346 | The table is found exactly when one of the first hundred pages of the chain lists it |
| TableSummary.NotFoundIffEnded | backend/validation.go:336-338 | "Not found" exactly when the chain ends within a hundred pages and none lists the table |
| TableSummary.RepeatedMeansNowhere | backend/validation.go:339-341 | A repeated-token error means that no page of the chain lists the table |
| Sorting.SortIsSorted | portal/src/api.ts:651 | The stable sort is ordered under any total preorder |
| Sorting.SortIsStable | portal/src/api.ts:651 | Items that the order does not tell apart keep their order |
| ListAll.ListAll | portal/src/api.ts:635-660 | The walk ends for the reason it gives, with all tokens before it different; pages answered between two equal generation checks belong to that generation |
| ListAll.OutcomeIsUnique | portal/src/api.ts:635-660 | The session determines the outcome and the page at which the walk ends |
| ListAll.ListedIsWhole | portal/src/api.ts:635-660 | A returned list is the name-sorted concatenation of a finished chain of at most a hundred pages, all of one context generation |
| ListAll.ListedIffEnded | portal/src/api.ts:635-660 | While the context does not change, a list is returned exactly when the chain ends within a hundred pages |
| ListAll.ErrorsIff | portal/src/api.ts:652-659 | Then, too, the repeated-token error occurs exactly when a token repeats in time, and the page limit exactly when a hundred pages go on without repeating |

## Left out

- HTTP, TLS, URL building, host policy and the Databricks and Kubernetes clients: their answers are arbitrary parameters.
- The access reviews themselves and the headers that identify a caller: their answers are parameters of `QueryTable`; for registrations they are early exits ahead of the modelled steps.
- Condition messages and transition times: only kind, status, reason and generation are modelled; reasons are an enumeration.
- Requeue requests that are mapped from dependencies, and Kubernetes work queues: a reconcile may happen at any time in the step system.
- Controllers.TableObject.Reconcile: the clock is a parameter, and the refresh time is kept only as a value.
- ClientCache.ClientCache.StoreClient: the loop that adds missing usage records is omitted, since equal key sets are part of the invariant; the logical clock is a natural number and does not wrap at 64 bits.
- ClientFactory.ClientFactory.ClientFrom: a token is identified by its digest, as in the code; that distinct tokens have distinct digests is not claimed. Interleavings inside one call, such as a host change between reading the configuration and storing a client, are not modelled.
- SliceAuthority.SliceAuthority.ClusterClient: takes cluster ids without a bar, which the only caller guarantees (tenant/client.go:200-203); interleavings inside one call are not modelled.
- preflightTables and item normalization (tenant/import.go, importapi): finite checks; normalization is an arbitrary function in `NormalizeItems`.
- BranchSelection.ExhaustBranchSelection: pages must hold childless nodes of a kind deeper than their parent, with kinds determined by ids, as the portal's id prefixes make them; labels, expansion and loading marks are not modelled.
- updateLeafSelection, visibleTreeIds and summarizeRegistration: toggling one leaf under the limit, listing the expanded rows and counting results by state for display.
- LatestRefresh.Controller.Request: a task that throws before returning a promise is not modelled.
- ListAll.ListAll: the locale's collation is an arbitrary total preorder, and items are a name with an opaque rest.
- McpBound.BoundMcpQueryOutput: the text of a row's cells is an arbitrary printer, so number and nested-object formatting is not modelled.
- ListTables.ListTablesTool: stated for any encoder; the byte bound for the concrete one is `ListMessageFits`.
- Action path parsing, error code tables, leader election, health state, assets and Vue components: plumbing or user interface.
