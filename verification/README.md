# A verified model of the memory server

The memory server stores markdown documents for many tenants, decides who may read and write them, ranks them for
search, expands the includes between them, and keeps several replicas and background workers consistent over one
PostgreSQL database. This project models the parts of it whose correctness rests on an argument across several
functions or over whole runs, and proves those arguments.

Where the program changes things in place the model does too: stores, resolvers, workers and the search of the
authorization engine are classes or loops proved against functions of the state. Where several processes interleave,
the model is a relation of steps over a shared state and the theorems are about every run of steps.

| file | what it models |
|---|---|
| `authz_model.dfy`, `authz_store.dfy`, `authz_check.dfy`, `authz_namespace.dfy` | relation tuples and the least-fixpoint meaning of a grant; the tuple store; the recursive Check with its path set, memo table, depth cap and first-error rule; the fixed namespace |
| `glob.dfy`, `includes.dfy` | scope patterns; the bounded, cycle-safe, de-duplicating expansion of includes |
| `fusion.dfy`, `mmr.dfy` | Reciprocal Rank Fusion with tiers; Maximal Marginal Relevance |
| `section_merge.dfy`, `document_merge.dfy` | writing a document's sections in four modes; merging two documents |
| `config_listener.dfy` | replicated configuration caches kept current by LISTEN and NOTIFY |
| `auth_codes.dfy`, `refresh_tokens.dfy` | single-use authorization codes (section 4.1.2 of RFC 6749) and refresh rotation with family revocation (section 10.4 of RFC 6749) |
| `import_queue.dfy`, `import_worker.dfy` | the import queue under several replicas, crashes and sweeps; one job from archive to terminal row |
| `identity_resolver.dfy` | logins anchored on the (issuer, subject) pair of section 5.7 of OpenID Connect Core 1.0 |
| `doc_policy.dfy` | document type policies, their inheritance, the admin patch and the snapshot store |
| `retention.dfy` | one retention cycle over all tenants |
| `paths.dfy`, `like_escape.dfy`, `snippet.dfy` | document paths; prefix filters against LIKE; snippet windows |
| `strings.dfy`, `sorting.dfy`, `cardinality.dfy`, `wrappers.dfy` | shared notions |

Check everything with `dafny verify dfyconfig.toml`.

## What is assumed

- Scores, embeddings and the penalties of the re-ranking are real numbers and cosine similarity is any function;
  identifiers are numbers or strings with their usual order in place of UUIDs and their text.
- Strings are sequences of characters. Length limits the program counts in bytes coincide with character counts on
  every text that also passes the segment pattern; on the others both reject, with different messages.
- The segment matcher of a glob, the test for white space, the JSON parser of policy rules, the test for blank
  content and the answers of stores that may fail are parameters. The policies use three facts about the parser:
  the empty object has no rules, the seeded handoff rules decode, and they are an object.
- A database statement is atomic. Transactions are explicit steps where their interleaving is the point
  (authorization codes, claims of import jobs) and atomic elsewhere. The two reads of a refresh token lookup and the
  check and the store of a policy patch are separate where `ReadableIsExpired` and `OverlapAcceptedIff` say so.
  Otherwise a call is atomic: logins, merges and retention cycles, and the other calls of the token store.
- Clocks are integers that do not run backwards: minutes in the import queue, days elsewhere.
- Error messages are constructors of a datatype in place of text.

## Where the code differs from what is written about it

- `internal/authletstore/codes.go:38` says that redeeming an expired code deletes its row. The error returned from
  the transaction rolls the delete back, so the row stays: `AuthCodes.ExpiredRowStays`. Single use is unaffected.
- `internal/authletstore/refresh.go:116-123` takes it that a tombstone older than 90 days can go. With tokens that live
  at most as long it can go too early in two ways, and in no other: the purge of the tokens failed, or a token was
  saved into the family so late that it outlives the tombstone, which `Save` does not check (`RefreshTokens.BuriedIff`,
  `FailedPurgeExposes`, `LateSaveRevives`). In the first case, if sweeps do not run ahead of the clock, the token has
  expired by then (`ReadableIsExpired`).
- `MarkUsed` promises that a second call reports an already consumed token. That holds exactly for non-empty
  successors: `RefreshTokens.MarkKeepsActiveIff`.
- A load of the configuration by another goroutine that overlaps the commit of a change can store an outdated value
  that nothing corrects until the next change: `ConfigListener.LateStoreLeavesStale`. Without such an overlap every run
  converges: `QuietIsCurrent`.
- `internal/authz/config.go:31` calls the direct subject types documentation only. The wildcard entry is enforced
  (`internal/authz/check.go:143-155`), and the model follows that.
- A memoised deny is described as definitive (`internal/authz/check.go:58-61`), but one that leaned on a cycle prune is
  stored too, even of a node that is granted in the end: `AuthzCheck.RecordedDenyOfGranted`. It is definitive once the
  search is back at the root: `AuthzCheck.RootDenyIsDefinitive`.
- The tiers of the fusion are meant to come in order. They do for pools of up to 61 and need not for larger ones:
  `Fusion.TiersInOrderIff`.
- A row of `tenant_users` whose subject is empty but set counts as having no subject when it is read and as having one
  when it is stamped, so several identities can share it: `IdentityResolver.SharedIff`. The resolver itself never
  writes such a row.
- A policy patch is validated against the table it read, not the one it is stored into. Every table that patches reach
  one after the other is valid, but a patch to reference that overlaps one to another type can leave a table that no
  longer loads: `DocPolicy.OverlapAcceptedIff` and `CommitAcceptedIff` say exactly when, `WriteSkewExample` shows one.
  Of two overlapping patches to one type the first is lost: `LastPatchWins`.
- The snippet window is centred so that the match is not cut off. Windows of one rune, and of two unless the text
  starts with the match, miss the first rune of it: `Snippet.MatchKeptIff`.

## Model

| member | source | states |
|---|---|---|
| AuthzModel.DerivableStep | internal/authz/check.go:83-93 | A subject holds a relation exactly when it is named on the node or holds something the node refers to: the grants are a fixpoint of the rewrite rules. |
| AuthzModel.GrantIff | internal/authz/check.go:105-193 | The same on the fields of the tuples: a grant comes from a direct subject, from a wildcard subject where the relation lists its type with a star, from a userset, a sibling relation or a parent object, and from nothing else. |
| AuthzModel.WildcardGrants | internal/authz/check.go:148-155 | A wildcard tuple grants its relation to every subject of its type where the relation lists the wildcard. |
| AuthzModel.NothingDerivableIn | internal/authz/check.go:83-100 | They are the least one: no node of a set whose members only support one another is granted, at any derivation depth. |
| AuthzModel.NodeKeyInjective | internal/authz/check.go:57 | The string key of visited and memo identifies a node when types have no colon and relations no hash sign. |
| AuthzModel.NodeKeyCollides | internal/authz/check.go:57 | With either separator inside a name two different nodes share a key. |
| AuthzStore.TupleKeyInjective | internal/authz/store.go:27-32 | The NUL-joined key identifies a tuple whose six fields have no NUL. |
| AuthzStore.TupleKeyCollidesIff | internal/authz/store.go:25-32 | A tuple shares its key with another one if and only if one of its fields has a NUL. |
| AuthzStore.Store.Write | internal/authz/store.go:47-52 | The map store is a set: a write adds the tuple and drops only tuples with the same key, which on NUL-free tuples is plain insertion. |
| AuthzStore.Store.Delete | internal/authz/store.go:54-59 | A delete removes exactly the tuple on NUL-free stores. |
| AuthzStore.Store.ReadByObjectRelation | internal/authz/store.go:61-71 | A read that succeeds returns every tuple on the object and relation and no other, in any order. |
| AuthzCheck.Engine.Check | internal/authz/check.go:41-47 | For every namespace without separators in its names, every store, cap and subject: an answer without error is the least-fixpoint answer, in both directions, and so is every answer, errors or not, when the store is reliable and no path exceeds the cap, so that a grant wins over errors elsewhere; a grant never comes with an error; every error has its cause in the graph searched; a deny without error has reached no node that does not share its key with a known one; with a reliable store, no reachable unknown relation and a cap of at least the number of reachable known nodes there is no error. |
| AuthzCheck.Engine.CheckNode | internal/authz/check.go:52-101 | One call of the recursion, never deeper than one past the cap: it restores the path, grants only what is derivable, and otherwise leaves a memo whose denied nodes refer only to nodes denied, left with an error or on the path. |
| AuthzCheck.Engine.EvalUnion | internal/authz/check.go:82-93 | The loop over the rewrites: a grant ends it, an error does not; a clean deny leaves every rewrite's references denied or on the path, and one whose only errors are unknown relations leaves every reference to a known node tried. |
| AuthzCheck.Engine.EvalRewrite | internal/authz/check.go:105-117 | One rewrite grants only what follows from it, and without a grant ends with its references seen in the same sense. |
| AuthzCheck.Engine.EvalThis | internal/authz/check.go:123-168 | Direct, wildcard and userset subjects: a direct or admitted wildcard name grants, usersets are searched past errors, and without a grant no tuple names the subject. |
| AuthzCheck.Engine.EvalTupleToUserset | internal/authz/check.go:173-193 | Parent edges are followed past errors and malformed rows skipped; without a grant every parent has been seen. |
| AuthzCheck.DenyKeepsSwept | internal/authz/check.go:94-100 | Recording the deny of a swept node keeps the invariant once the node leaves the path, also when the deny leaned on a cycle prune. |
| AuthzCheck.TryKeepsSwept | internal/authz/check.go:82-100 | So does leaving a node with an error unrecorded, when unknown relations are the only errors. |
| AuthzCheck.RootDenyIsDefinitive | internal/authz/check.go:41-47 | With the path empty again a deny is definitive: a node denied, or tried without a grant, is not derivable. |
| AuthzCheck.RootDenySweepsAll | internal/authz/check.go:41-47 | Without an error everything the root reaches has been searched: each node it reaches shares its key with a known one. |
| AuthzCheck.RecordedDenyOfGranted | internal/authz/check.go:65-69 | Until then it need not be: in a namespace of three relations a node that is granted in the end is denied and recorded below a cycle prune. |
| AuthzCheck.DepthBoundedByReach | internal/authz/check.go:52-77 | The depth is the length of a path without repetition, so a cap of at least the number of reachable known nodes never binds. |
| AuthzCheck.DepthBoundedByRank | internal/authz/check.go:52-77 | When every reference lowers a rank, the length of the path and the rank of its end stay within the rank of the root. |
| AuthzNamespace.DefaultWellNamed | internal/authz/config.go:97-183 | The default model has no separator in a name, so the node keys are injective on it. |
| AuthzNamespace.DefaultDepth | internal/authz/config.go:89-97 | On well-typed stores without usersets no search under the default model goes deeper than 5, and none from a known relation meets an unknown one. |
| AuthzNamespace.DepthFiveIsReached | internal/authz/config.go:92-96 | The bound is attained by a document view checked down to the system administrators. |
| AuthzNamespace.TenantGrants | internal/authz/config.go:114-155 | Who is admin, manager, member and viewer of a tenant, in closed form over the tuples. |
| AuthzNamespace.DocumentGrants | internal/authz/config.go:157-180 | Who can edit and who can read a document, in closed form over the tuples. |
| AuthzNamespace.TenantUsers | internal/authz/config.go:114-155 | Which stored tuples, spelled out, make a user admin, manager, member or viewer of a tenant. |
| AuthzNamespace.DocumentUsers | internal/authz/config.go:157-180 | Which stored tuples let a user edit and read a document. |
| AuthzNamespace.PublicTenant | internal/authzseed/authzseed.go:121-129 | In every store, one wildcard viewer tuple on a tenant lets every user view it and read every document whose parent it is. |
| AuthzNamespace.InclusionChain | internal/authz/config.go:89-92 | system admin, tenant admin (and owner), manager, member, viewer: each includes the one before it, given the parent edge. |
| AuthzNamespace.PublicTuplesOnlyView | internal/authz/check.go:143-155 | Without usersets, removing every user:* tuple changes no grant of admin, owner, manager, member or editor to a concrete subject. |
| AuthzNamespace.OwnersAreNotAdmins | internal/authz/config.go:90-92 | Removing every owner tuple changes no admin grant. |
| Glob.MatchSegments | internal/service/includes.go:55-77 | The two-pointer loop with a single remembered backtrack point terminates and returns true exactly when the recursive meaning of the pattern holds, for every segment predicate. |
| Glob.GlobMatch | internal/service/includes.go:55-77 | The same for slash-separated strings. |
| Glob.OlderStarsAreSpent | internal/service/includes.go:59-72 | Once a second double star is reached the first never needs revisiting, which is why one backtrack point suffices. |
| Glob.PlainMatches | internal/service/includes.go:64-65 | A pattern without a double star matches exactly the texts of as many segments, segment by segment. |
| Glob.StarsMatch | internal/service/includes.go:62-67 | A double star stands for any number of segments between what the two sides of it match. |
| Glob.ScopeMatches | internal/service/includes.go:41-50 | True exactly when some field of the values equals or matches some field of the patterns. |
| Strings.JoinSplit | internal/service/includes.go:56 | Splitting loses nothing: joining the parts gives the string back, and no part has the separator. |
| Strings.SplitJoin | internal/models/document.go:102-112 | Splitting a join of separator-free parts gives the parts back. |
| Strings.FieldsAre | internal/service/includes.go:42-43 | Text without white space is one field, or none when empty, and white space keeps the fields of its two sides apart. |
| Includes.LinkOrder | internal/service/includes.go:152-163 | The links of a document are the targets of its outgoing includes, each as often as it is listed and nothing else, in creation order, ties by edge id. |
| Includes.LinksIff | internal/service/includes.go:152-157 | A document links to another exactly when one of its edges is outgoing, an include, and leads there. |
| Includes.TakenInIff | internal/service/includes.go:194-209 | A link takes its target in exactly when it is readable, renders, and has no scope, a blank one, or one with a pattern that a field of the read-time scope equals or matches. |
| Includes.IncludeResolver.ResolveOne | internal/service/includes.go:194-209 | Missing, not rendered and out-of-scope documents get their status; only the others may be taken in. |
| Includes.IncludeResolver.Walk | internal/service/includes.go:147-189 | The recursive walk keeps the path, records one entry per link of every document it walks in link order, and keeps every bound and every entry's reason true. |
| Includes.ResolveIncludes | internal/service/includes.go:103-115 | The root is never included, every document at most once, at most 500, each within depth 10; the manifest has an entry from d to e exactly when d is the root or included and an outgoing include leads from d to e, in link order, a document's own entries right after the one that took it in; every status follows from the entries before it: on the way there, taken in already, over a bound, or as the document resolves; without a skipped_depth entry the result is exactly what is reachable. |
| Includes.VisitsBounded | internal/service/includes.go:166-174 | From the 2001st link on nothing new is taken in. |
| Includes.NothingLeftOut | internal/service/includes.go:147-189 | A finished walk without skipped_depth entries has taken in everything reachable through resolvable includes. |
| Fusion.RrfRanks | internal/repository/section.go:165-187 | The ranks assigned by sorting are one more than the number of listed rows ahead, 0 for rows not in the list. |
| Fusion.FuseHybridScored | internal/repository/section.go:209-271 | The two output lists hold every kept row once with its fused score and tier, strictly sorted by score and then id. |
| Fusion.FuseHybrid | internal/repository/section.go:275-281 | The first limit results of that fusion, or all of them. |
| Fusion.FusionUnique | internal/repository/section.go:209-271 | Any two fusions of permutations of the same rows are equal, results and embeddings. |
| Fusion.FusionShows | internal/repository/section.go:209-258 | A row is in the output if and only if it is lexical or its cosine is at least 0.4, nothing else is, and the order is by score and then id. |
| Fusion.FusionScores | internal/repository/section.go:155-204 | A row's score is 1/(60+rank) from each list it is in, a rank being one more than the number of shown rows with a better value or an equal one and a smaller id; it is high in both lists, else standard when twice its rank fits the pool, else low; payload and embedding are its own. |
| Fusion.TiersSeparate | internal/repository/section.go:189-204 | In pools of at most 61 every high result precedes every standard one and that every low one. |
| Fusion.TiersCanMix | internal/repository/section.go:110-114 | For every pool of 62 or more there are rows whose fusion breaks that order. |
| Fusion.TiersInOrderIff | internal/repository/section.go:189-204 | Tiers come in order in every fusion of lists that fit the pool if and only if the pool is at most 61. |
| Mmr.ApplyMmr | internal/repository/section.go:311-389 | At lambda 0.999 and above the score order cut at the limit; below, the first limit picks of the naive greedy algorithm over the pool cut at twice poolSize, or at 40. |
| Mmr.Greedy | internal/repository/section.go:337-388 | The loop with running penalties makes the choices of the naive algorithm, which recomputes each penalty as the largest of 0 and the cosines to everything picked. |
| Mmr.Best | internal/repository/section.go:366-376 | Each pick is the lowest-index unpicked item of greatest marginal relevance. |
| Mmr.Penalize | internal/repository/section.go:379-386 | After the update every unpicked item's running penalty is the recomputed one. |
| Mmr.Normalize | internal/repository/section.go:341-363 | Scores are scaled to the unit interval over the pool, or to 1 throughout when they all agree. |
| Mmr.RerankPrefix | internal/repository/section.go:311-389 | The result for a smaller limit is a prefix of the result for a larger one. |
| Mmr.PicksAreBest | internal/repository/section.go:337-388 | On scores and cosines: each pick has the greatest weight times scaled score less the rest times the largest similarity to what is picked, of all items passed over, and a greater one than those before it. |
| Mmr.NoveltyFirst | internal/repository/section.go:366-386 | Similarity counts against an item: with lambda below 1, of equal scores none is picked that has some similarity to an earlier pick while an item passed over is less similar to every earlier pick. |
| Mmr.RelevanceFirst | internal/repository/section.go:366-376 | Relevance counts for it: with a positive lambda, of items equally similar to every earlier pick the higher score goes first. |
| Mmr.RerankSelects | internal/repository/section.go:311-389 | The result holds distinct members of the pool. |
| Mmr.RerankKeepsTop | internal/repository/section.go:311-389 | With non-negative lambda the first result is the top of the score order. |
| SectionMerge.WriteSections | internal/service/write_path.go:354-423 | All four modes: append_only fails exactly when an incoming section has the heading of a stored one, names the first such and changes nothing; otherwise the stored rows of the document are exactly the returned list, with embeddings exactly where the type embeds or the row was not written, other documents untouched, it is the replacement or the merge, and its ordinals increase whenever those of the stored (for replace, the incoming) sections do. |
| SectionMerge.UpsertSections | internal/service/write_path.go:375-422 | Merge and append_only pair the i-th incoming section of a heading with the i-th stored one and put the others behind every ordinal in use under fresh ids. |
| SectionMerge.ReplaceSections | internal/service/write_path.go:365-373 | Replace leaves exactly the incoming sections, under fresh ids. |
| SectionMerge.PartnerStep | internal/service/write_path.go:391-410 | One more incoming section changes the partner of exactly the stored section of its heading with the same occurrence number. |
| SectionMerge.KeyEqualIff | internal/service/write_path.go:344-349 | Two headings meet exactly when they are equal, or both are absent or the text that stands for an absent one. |
| SectionMerge.PartnerIff | internal/service/write_path.go:391-410 | A stored and an incoming section are paired exactly when they have the same heading and as many sections of it before them. |
| SectionMerge.MergeOutcome | internal/service/write_path.go:391-420 | A stored section takes content and embedding of the incoming one it is paired with and nothing else of it, or comes back as it was. |
| SectionMerge.MergeAdds | internal/service/write_path.go:407-422 | The incoming sections paired with none are added, in their order, behind every ordinal in use, and nothing else is. |
| SectionMerge.UnmetStays | internal/service/write_path.go:414-420 | A stored section whose heading no incoming section has comes back as it was, content included. |
| SectionMerge.MaxOrdinalIsMax | internal/service/write_path.go:379-387 | The ordinal new sections are put behind is the largest in use, or -1 where none is larger. |
| SectionMerge.MergeKeepsOrder | internal/service/write_path.go:407-422 | After a merge the ordinals are strictly increasing again: nothing dropped, nothing reordered. |
| SectionMerge.MergeIdempotent | internal/service/write_path.go:354-423 | Merging the same sections again into the rows as stored, with or without embeddings, adds nothing and gives every section back: the written ones as written, the others as stored. |
| ConfigListener.StepKeepsIff | internal/pgnotify/listener.go:143-205 | A step keeps the cache invariant of every replica if and only if it is not an outside load storing an outdated value over a settled channel. |
| ConfigListener.OvertakenMeansOverlap | internal/globalconfig/globalconfig.go:60-67 | In every run such a store comes from a load whose channel was committed between its read and its store. |
| ConfigListener.RunKeeps | internal/pgnotify/listener.go:112-186 | The invariant holds in every state of every run without such a store. |
| ConfigListener.QuietIsCurrent | internal/pgnotify/listener.go:143-205 | In every run in which no change is committed while another goroutine loads its channel, a replica past its reloads with nothing queued or in progress serves the last committed value of every channel, except those whose own last reload failed. |
| ConfigListener.QuietServesLastCommit | internal/pgnotify/listener.go:143-205 | In such a run that value is the one of the last commit to the channel. |
| ConfigListener.Recovers | internal/pgnotify/listener.go:112-186 | From every state every replica can get back to serving the committed value of every channel, and nothing else need change. |
| ConfigListener.AtomicLoadsAreSafe | internal/globalconfig/globalconfig.go:60-67 | Every run in which outside loads store right after they read meets that condition. |
| ConfigListener.LateStoreLeavesStale | internal/globalconfig/globalconfig.go:60-67 | A run in which a load that overlaps a commit leaves an outdated snapshot behind, with the replica quiet and no reload failed. |
| AuthCodes.GrantsWithinSaves | internal/authletstore/codes.go:39-77 | In every interleaving of saves, sweeps and redemptions, grants of a code plus its remaining row never exceed the times it was saved. |
| AuthCodes.SingleUse | internal/authletstore/codes.go:39-77 | A code saved once is granted at most once, and not after it expires. |
| AuthCodes.RedemptionDecides | internal/authletstore/codes.go:45-77 | The statements of one redemption run to their end on a code nobody else redeems: a stored code that has not expired is granted and gone, an expired one refused, an unknown one not found. |
| AuthCodes.LoserFindsNothing | internal/authletstore/codes.go:48-55 | Of two redemptions that both read the row the second to delete waits for the first and finds nothing once it is granted. |
| AuthCodes.RowAfter | internal/authletstore/codes.go:14-85 | A stored code goes only by a sweep after its expiry or by the grant of it, and comes only by its first save. |
| AuthCodes.ExpiredRowStays | internal/authletstore/codes.go:56-58 | Redeeming an expired code is refused but leaves its row, because the error undoes the delete. |
| RefreshTokens.RefreshStore.MarkUsed | internal/authletstore/refresh.go:60-82 | Rotates exactly an active token; otherwise tells a consumed token from an unknown one and changes nothing. |
| RefreshTokens.RefreshStore.Get | internal/authletstore/refresh.go:34-56 | A call with nothing between its two reads tells unknown hashes, revoked families and readable tokens apart. |
| RefreshTokens.RefreshStore.Save | internal/authletstore/refresh.go:15-30 | Adds exactly the token, or reports that the hash exists and changes nothing. |
| RefreshTokens.RefreshStore.RevokeFamily | internal/authletstore/refresh.go:84-94 | Keeps the time of the first revocation and touches no token. |
| RefreshTokens.RefreshStore.DeleteExpired | internal/authletstore/refresh.go:107-126 | Purges expired tokens and prunes old tombstones, each whether or not the other statement failed. |
| RefreshTokens.BuriedIff | internal/authletstore/refresh.go:15-126 | Of all calls exactly two kinds let a token of a revoked family outlive its revocation: a prune beside a failed purge, and the save of a new token that outlives the tombstone or finds none. |
| RefreshTokens.RevokedForGood | internal/authletstore/refresh.go:34-126 | Over every timed run with lifetimes of at most 90 days and neither of those calls, a revoked family's tokens are never returned again, even after the tombstone is pruned. |
| RefreshTokens.ReadableIsExpired | internal/authletstore/refresh.go:34-126 | Whatever purges fail, and however long a Get takes between its reads, a token of a revoked family that is still returned has expired, if sweeps are not ahead of the clock and no save was late. |
| RefreshTokens.FailedPurgeExposes | internal/authletstore/refresh.go:116-123 | A concrete run in which a failed purge hands a revoked token out again. |
| RefreshTokens.LateSaveRevives | internal/authletstore/refresh.go:15-30 | A concrete run, with every statement succeeding, in which a token saved after the revocation outlives the tombstone and is handed out. |
| RefreshTokens.ReplacementIsFinal | internal/authletstore/refresh.go:60-82 | Over every run a replaced token keeps its successor, and all else, for as long as it is stored. |
| RefreshTokens.TokenStays | internal/authletstore/refresh.go:58-126 | A stored token goes exactly when a sweep after its expiry purges, and only rotation changes it. |
| RefreshTokens.RotatedOnce | internal/authletstore/refresh.go:60-82 | With successors named, the successful rotations of a hash never exceed its successful saves. |
| RefreshTokens.MarkKeepsActiveIff | internal/authletstore/refresh.go:65-67 | Marking leaves a token rotatable again exactly when it names no successor. |
| ImportQueue.ImportJobs.ClaimNext | internal/repository/import_job.go:50-78 | Claims a queued job of the earliest creation time, and nothing exactly when none is queued. |
| ImportQueue.ImportJobs.Finish | internal/repository/import_job.go:111-130 | Writes the terminal state only over a running row and reports not-found otherwise. |
| ImportQueue.ImportJobs.SweepRunningToFailed | internal/repository/import_job.go:139-151 | Fails exactly the running rows untouched for more than an hour. |
| ImportQueue.StepKeeps | internal/repository/import_job.go:50-151 | Every step of claims, writes, crashes and sweeps keeps: one claim per job that has left the queue, no two workers on one job, each worker's job as it last wrote it or swept after an hour, counters within the total. |
| ImportQueue.RowAfter | internal/repository/import_job.go:36-151 | What each step does to one job: it appears queued and empty, and only a claim, a progress write or a finish by the worker that has it, or a sweep after an hour, changes it. |
| ImportQueue.OldestFirst | internal/repository/import_job.go:54-60 | A queued job is passed over for a younger one only while another worker is claiming it. |
| ImportQueue.JobCanBeDone | internal/service/import_worker.go:112-133 | An idle worker can always take a queued job nobody is claiming and carry it to any terminal state, changing nothing but that row. |
| ImportQueue.ClaimedOnce | internal/repository/import_job.go:50-78 | Over any interleaving a job is claimed at most once, no two workers have it at a time, and its counters stay within its total. |
| ImportQueue.TerminalForGood | internal/repository/import_job.go:105-130 | What a terminal row holds it holds at every later time. |
| ImportQueue.TimelyFinishWins | internal/repository/import_job.go:111-151 | A worker that finishes within an hour of its last write always decides the row. |
| ImportQueue.LateFinishLosesToSweep | internal/service/import_worker.go:183-193 | A finish that finds the row no longer running finds it failed and marked interrupted by a sweep, and changes nothing. |
| ImportQueue.SweepSparesFresh | internal/repository/import_job.go:132-151 | A sweep leaves a running job alone if and only if its worker wrote within the last hour. |
| ImportWorker.ImportResult.Walk | internal/service/import_worker.go:229-256 | The walk stops at the first entry that does not open, breaks the byte budget or reads with an error, counts every earlier entry once unless blank, and never buffers more than one byte over the budget. |
| ImportWorker.CompleteIff | internal/service/import_worker.go:229-256 | The incremental budget checks all pass exactly when every entry opens and reads cleanly and the whole archive fits the budget. |
| ImportWorker.EveryEntryAccounted | internal/service/import.go:45-81 | Imported, skipped, failed and blank entries add up to the entries walked. |
| ImportWorker.ImportResult.Emit | internal/service/import.go:49-76 | Each document is counted once: skipped when its path does not parse or validate, else imported or failed by the store's answer. |
| ImportWorker.Process | internal/service/import_worker.go:142-176 | An archive that does not open or has more than 10000 markdown entries fails at once with that error; any other is walked within 512 MiB, and the outcome of the walk, counters and error included, is written to the row if it is still running, and nothing when it was not to begin with. |
| ImportWorker.OutcomeMeans | internal/service/import_worker.go:160-176 | A walked job succeeds exactly when the walk completes and not every stored document failed; its counters fit its total, and on a complete walk the gap is the number of blank entries. |
| ImportWorker.WantedIff | internal/service/import_worker.go:215-221 | A file is imported exactly when it is no directory, its name ends in .md and does not mention CLAUDE.md. |
| ImportWorker.MarkdownIs | internal/service/import_worker.go:214-223 | All of those are, in the order of the archive. |
| ImportWorker.SkippedIff | internal/service/import.go:49-64 | A document is skipped exactly when its path, less the suffix, is not one the write contract accepts. |
| ImportWorker.PrintedGetsIn | internal/service/import.go:49-76 | Every path the store itself prints gets in. |
| IdentityResolver.Resolver.Resolve | internal/authletas/resolver.go:78-155 | The new table and the answer are those of the anchor that hits: identity, then email, then provisioning; a rejected call leaves the table as it was, a successful one changes or adds no row but the one it returns. |
| IdentityResolver.RejectedLeavesTable | internal/authletas/resolver.go:83-95 | A login that is turned away leaves the table alone; an empty or unverified email is turned away before anything else. |
| IdentityResolver.SuccessTouchesOne | internal/authletas/resolver.go:97-155 | A login that succeeds changes the row it returns and no other, never replaces a subject that is set, and adds a row only by the callback. |
| IdentityResolver.LoginByEmail | internal/authletas/resolver.go:181-197 | Where the identity is not anchored the email decides: a row with a subject of its own turns the login away, one with none is adopted by a full identity, one with an empty subject is returned as it is. |
| IdentityResolver.LoginProvisions | internal/authletas/resolver.go:123-155 | Where nobody has the email either the callback decides, and the row it creates carries the full identity or none. |
| IdentityResolver.RunKeeps | internal/authletas/resolver.go:78-258 | Over every run of logins and invitations emails and identities stay unique, rows stay, and an anchored (issuer, subject) pair never changes. |
| IdentityResolver.LoginAnchors | internal/authletas/resolver.go:181-197 | A successful login with a full identity leaves its row anchored to it if and only if the row's subject is not empty-but-set. |
| IdentityResolver.FailsClosed | internal/authletas/resolver.go:187-192 | A row that belongs to an identity never authenticates another one, nor a login without identity. |
| IdentityResolver.SameIdentitySameId | internal/authletas/resolver.go:95-107 | A full identity that resolved once resolves to the same id in every later login, across email changes. |
| IdentityResolver.DistinctIdentities | internal/authletas/resolver.go:95-155 | Two different full identities never resolve to the same id, from tables without empty-but-set subjects. |
| IdentityResolver.AdmittedIff | internal/authletas/resolver.go:78-155 | A login succeeds if and only if its email is set and verified and its identity is anchored, or its email's row belongs to nobody, or nobody has the email and the callback provisions it. |
| IdentityResolver.EmailFollows | internal/authletas/resolver.go:245-258 | The email of an anchored row follows the claim unless another row has it; nothing else changes. |
| IdentityResolver.SharedIff | internal/authletas/resolver.go:187-196 | Two identities can log in one after the other to one row if and only if its subject is empty but set and its email is not empty. |
| IdentityResolver.BlankSubjectIsShared | internal/authletas/resolver.go:187-196 | Such a row resolves for every identity the table does not know, and is never anchored to any of them. |
| DocPolicy.ResolveDocTypePolicies | internal/models/doc_type_policy.go:243-265 | Resolution succeeds exactly when the reference row exists and is complete and all rules decode, and gives every type its row laid over the reference. |
| DocPolicy.ResolvesIff | internal/models/doc_type_policy.go:268-292 | A table resolves exactly when it has a reference row that sets everything but perhaps the expiration, and all rules decode. |
| DocPolicy.ResolvedIs | internal/models/doc_type_policy.go:307-345 | Every column of every type is its own value or, where it is NULL, that of the reference row; rules are never inherited. |
| DocPolicy.ValidateEffective | internal/models/doc_type_policy.go:218-238 | No error exactly for valid enums, a non-negative expiration, search only with embeddings and the duplicate guard only with replace. |
| DocPolicy.PolicyStore.Load | internal/staleness/staleness.go:54-70 | Swaps the snapshot for the resolved table exactly when the table is accepted. |
| DocPolicy.PolicyStore.SetDocTypePolicy | internal/service/write_path.go:153-212 | Succeeds exactly when an admin patches a known type, the merged table is accepted and the row passes the table's checks; then the reload is never rejected and the snapshot is the resolved table; otherwise nothing changes. |
| DocPolicy.PatchedColumns | internal/service/write_path.go:215-249 | Supplied columns replace the stored ones; the others stay as they are, NULL where they were NULL or the type had no row. |
| DocPolicy.SeedAccepted | internal/models/doc_type_policy.go:119-160 | The seed resolves to valid policies, and its reference row is the compiled-in default. |
| DocPolicy.SeedServes | internal/models/doc_type_policy.go:119-160 | What the seed serves for each of the nine document types, value by value. |
| DocPolicy.EveryTableAccepted | internal/service/write_path.go:153-212 | Every table reachable from the seed by patches resolves to valid policies. |
| DocPolicy.AnswersAreValid | internal/staleness/staleness.go:101-107 | A store that serves an accepted table answers every type with a valid policy, unknown ones with the reference, and the write path never falls back to the default. |
| DocPolicy.ChecksFailIff | internal/database/database.go:256-271 | The table's CHECK constraints reject an accepted row exactly when its rules are the JSON null. |
| DocPolicy.PatchTakesEffect | internal/service/write_path.go:163-249 | An accepted patch changes the effective policy of its type in exactly the supplied fields. |
| DocPolicy.PatchedRules | internal/service/write_path.go:246-248 | Supplied rules replace the stored ones, which are kept otherwise. |
| DocPolicy.PatchStaysLocal | internal/service/write_path.go:153-249 | A patch to another type than reference changes no other type's policy. |
| DocPolicy.ReferencePatchFillsNulls | internal/models/doc_type_policy.go:307-345 | A patch to reference changes another type in exactly the fields it leaves NULL, to the new reference values. |
| DocPolicy.OverlapAcceptedIff | internal/service/write_path.go:163-201 | Two patches accepted against one table leave an accepted one when both are stored if and only if they are to one type, or neither is to reference, or the other type's new row does not clash with the new reference in search and embeddings or in duplicate guard and write mode. |
| DocPolicy.CommitAcceptedIff | internal/service/write_path.go:163-201 | However stale the table a row was computed from, storing it over an accepted one leaves an accepted one if and only if it does not clash with the reference in place or, being the reference, is complete and no row clashes with it. |
| DocPolicy.LastPatchWins | internal/staleness/staleness.go:86-97 | Of two overlapping patches to one type only the last is kept, whatever the first one set. |
| DocPolicy.WriteSkewExample | internal/service/write_path.go:163-201 | Two patches each accepted against the seed leave a table that no longer loads when both are stored, in either order. |
| Paths.ValidateDocumentPath | internal/models/validation.go:30-49 | No error exactly for triples within the length caps whose every segment has the segment shape. |
| Paths.ValidateSubcategoryPath | internal/models/validation.go:54-64 | The same for subcategories, and a reported bad segment is one. |
| Paths.SegmentIff | internal/models/validation.go:23 | A segment is valid exactly when it is not empty, all letters, digits, dots, underscores and hyphens, and starts with a letter or digit. |
| Paths.ParseAfterBuild | internal/models/document.go:87-114 | Printing and parsing gives a triple back if and only if category and slug are not empty and have no slash; the subcategory is free. |
| Paths.ValidRoundTrips | internal/models/validation.go:30-49 | Every triple the write contract accepts round-trips, so distinct documents have distinct paths. |
| Paths.ParsePlaces | internal/models/document.go:97-114 | The category stands before the first slash, the slug behind the last, and what is between them is the subcategory; a path without a slash is a slug in misc. |
| Paths.SlashesAround | internal/models/document.go:98 | Slashes around a path do not count. |
| Paths.BuildAfterParse | internal/models/document.go:97-114 | Parsing and printing gives the trimmed path back if and only if it has two or more segments. |
| Paths.ParseIsStable | internal/models/document.go:97-114 | Printing what was parsed and parsing it again changes nothing if and only if the path is not all slashes. |
| LikeEscape.EscapesOnce | internal/service/list_options.go:71-76 | The three replacement passes escape every character exactly once. |
| LikeEscape.EscapedPrefix | internal/service/list_options.go:71-76 | An escaped text matches itself only and leaves the rest of the pattern to the rest of the text. |
| LikeEscape.LikeMeans | internal/repository/document.go:164-169 | What the percent sign, the underscore, an escaped and a plain character of a LIKE pattern stand for. |
| LikeEscape.SlugFilter | internal/repository/document.go:165 | The slug filter finds exactly the slugs with the given prefix. |
| LikeEscape.SubcategoryFilter | internal/repository/document.go:168 | The subcategory filter finds exactly the given subcategory and those nested under it. |
| LikeEscape.BackslashLastFails | internal/service/list_options.go:69-76 | With the backslash pass last the filter would match texts without the prefix. |
| DocumentMerge.Documents.MergeDocuments | internal/service/cleanup.go:67-177 | Succeeds exactly when both documents are live and the caller's, differ, and own every kept section; then the winner holds exactly the kept sections under ordinals from 0 in the order asked for with heading and content as before, the loser and its sections are gone and nothing else changed; otherwise nothing changes, and a missing, unreadable or archived document is reported as not found. |
| DocumentMerge.DedupIs | internal/service/cleanup.go:86-95 | Deduplication keeps exactly the ids given, each once, in the order of first mention. |
| Retention.Store.Candidates | internal/repository/retention.go:82-108 | Exactly the due documents of the tenant, each once. |
| Retention.Store.DeleteExpiredCold | internal/repository/retention.go:113-126 | Deletes due documents with their sections and one audit row each, all of them unless one fails, and keeps what was done before a failure. |
| Retention.Store.ArchiveExpiredStale | internal/repository/retention.go:218-234 | Archives due documents with one audit row each, content kept, in the same manner. |
| Retention.ArchivesIff | internal/repository/retention.go:161-182 | A document is due for archiving only with at least one section and all sections flagged past the grace. |
| Retention.EvictedIff | internal/repository/retention.go:42-81 | Due for eviction are exactly the live documents of prunable types that expire, once they are older than that. |
| Retention.ArchivedIff | internal/repository/retention.go:55-63 | Due for archiving are exactly the live documents of the other types that expire, once each of their sections, and there is one, has been flagged that long. |
| Retention.SweptMeans | internal/repository/retention.go:113-157 | A sweep leaves evicted documents gone with their sections, archived ones marked, all else as it was, and one audit row of its own for each. |
| Retention.Scanner.RunOnce | internal/cleanup/scanner.go:107-136 | One cycle, reading the policies once per sweep, evicts and archives only documents that were due, never one of the common pool, never the same one twice, with one audit row each and everything else as it was; without errors it handles all that were due when it started. |
| Retention.ArchiveUnaffected | internal/cleanup/scanner.go:131-136 | When both sweeps see the same policies the evictions take nothing from the archive sweep. |
| Retention.NeverDueForBoth | internal/repository/retention.go:42-63 | Under one policy table no document is due both for eviction and for archiving. |
| Retention.SeedCutoffs | internal/repository/retention.go:42-63 | Under the seeded policies only journals and handoffs expire and prompts are neither evicted nor archived. |
| Snippet.SnippetWindow | internal/service/snippet.go:39-62 | The snippet is the stripped window around the first match, never longer than asked for and without sentinels. |
| Snippet.WindowHoldsMatch | internal/service/snippet.go:51-60 | The window holds the start of the match and as many runes as asked for when there are that many, and the match starts in its middle unless the text begins or ends too soon. |
| Snippet.StripAppends | internal/service/snippet.go:21-24 | Stripping takes the two sentinels out and leaves every other rune in its place. |
| Snippet.MatchKeptIff | internal/service/snippet.go:35-60 | The first rune of the match is in the window if and only if three runes are asked for, or two and the text starts with the match. |

## Left out

- HTTP handlers, MCP tools, the bootstrap script, middleware, webhooks, metrics and logging: plumbing around the parts modelled here.
- Embedding providers, vector and text indexes, text headlines, encryption and token signing: foreign code.
- Floating-point rounding, Unicode decoding and regular-expression engines.
- Near-duplicate scanning, history and metrics pruning within a cleanup cycle: independent of the retention sweep.
- The cleanup queue's pair table and the signing keys: at most one pending row or active key follows from one unique index or lock.
- `ListOptions` beyond its prefix escaping, slug formats and subcategory rules on write: single checks of one value.
- AuthzCheck.Engine.Check: assumes types without a colon and relations without a hash sign, as in the fixed namespace (`DefaultWellNamed`), because otherwise two nodes can share a key (`NodeKeyCollides`); and says nothing about which answer accompanies an error when a store read fails or the depth cap binds, because that depends on the order in which the store returns tuples.
- ConfigListener.QuietIsCurrent: makes no promise for a channel whose last reload failed, because the failure is only logged; retries and backoff times are steps without a clock.
- RefreshTokens.RevokedForGood: assumes no save that outlives the family's tombstone and no prune beside a failed purge, because each of them hands a token out again; saves that expire in time are allowed.
- RefreshTokens.RefreshStore.Get: a single call with nothing between its two reads; interrupted ones are `Got` of two states of a run, in `ReadableIsExpired`.
- IdentityResolver.Resolver.Resolve: two overlapping calls are not modelled, and database errors appear only as failures of the provisioning callback.
- IdentityResolver.RunKeeps: rows are never deleted in a run; removing a user or a tenant ends what was said about its rows.
- ImportWorker.Process: the writes of other workers during one job are in the queue protocol, not here; a panic in a job is a worker that gives up.
- DocPolicy.PolicyStore.SetDocTypePolicy: the audit row of an accepted patch is not modelled.
- DocumentMerge.Documents.MergeDocuments: authorization tuples and queue entries that go with the deleted document are not modelled.
- Retention.Scanner.RunOnce: edges, authorization tuples and metric events of evicted documents are not modelled, and candidates of a tenant are handled in any order.
- SectionMerge.WriteSections: a database error in the middle of a write is not modelled; the caller's transaction undoes it.
- Includes.ResolveIncludes: readability and rendering of a document are fixed facts during one expansion, and a failing edge listing is a document without links.
