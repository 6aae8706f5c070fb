# A verified model of SchemaLock

SchemaLock is a language server and command-line tool that checks YAML documents against JSON
schemas from a registry, at versions pinned in `schemalock.yaml` files. This project models its four
cores in Dafny and proves what they promise.

Run `dafny verify dfyconfig.toml` to check everything.

## What is modelled

**Strict rewrite.** `Json`, `StrictRewrite`, `StrictShape`, `StrictMeaning`, `StrictTheorems`,
`StrictConsequences` and `StrictWalk`. `WrapStrict` adds `additionalProperties: false` wherever a
sub-schema lists properties without it. The model has the walk itself, on shared mutable objects, with
the definitions map that aliases parts of the same document and the visited set (`StrictWalk`); the plain
structural pass it amounts to (`StrictRewrite.Close`); which paths of a document hold a sub-schema, keyword
by keyword, and what the pass adds there (`StrictShape`); a meaning for schemas with local, possibly cyclic
references (`StrictMeaning`); and the theorem that the rewritten schema means what the original means
when read closed (`StrictTheorems`). The meaning is given by two least predicates, acceptance and
rejection, each bounded by the number of references followed; `AcceptsOrRejects` shows that they
exclude each other. The walk and the meaning agree on which places are sub-schemas. Keywords the walk
does not visit are opaque: an arbitrary function of the keyword, its value and the instance.

**Cursor, pointers and diagnostics.** `Pointers`, `PositionIndex`, `KeySpelling`, `Cursor`,
`CursorBlocks`, `CursorOrder`, `EffectiveSchema`, `Completion` and `Diagnostics`. Escaping and splitting
of JSON Pointers; the index from pointers to source positions, and what it means that it goes by the
source text of keys and does not enter anchors, tags and aliases; the sorted entries and the stack of
open keys by which a cursor on a blank line is placed in a mapping, and when that depends on the order of
a map; the properties a schema has through
`$ref` and `allOf`; the completions built from them; and the flattening of an error tree into a sorted
list.

**Resolution and validation protocol.** `Registry`, `Resolution`, `ServerRun`, `CachingServer`,
`CdnResolver`, `ResolverChain`, `CompileCache`, `Pool`, `PoolSafety`, `PoolProgress`, `PoolChecks`, `Protocol`
and `Validation`. The
registry caches with expiry, back-off and hash-checked disk entries, under an arbitrary clock, network
and disk, and the resolver chain on top of them; on top of the chain, the handlers of the server with the
router's and the pin lookup's caches (`CachingServer`), against a server that resolves every document anew
(`ServerRun`), whose sessions and effects are in turn determined by the history of requests; the compile
cache; and the cancellable validation jobs as a transition system in which every lock-protected section, channel
operation, cancellation check and publication is one step. `Protocol` puts handlers and jobs together:
in every interleaving, what the handlers ask for is what the jobs deliver. `Validation` says what a job
finds, from the text and its resolution, and puts the whole server on top of the registry: its runs are
those of `Protocol`, and no job ever skips a document for a wrong hash.

**Pins.** `Sorting`, `PinMerge`, `PinWalk`, `PinMeaning`, `PinEdit`, `PinAdd` and `PinCommand`. The walk up
the directories, the decoding by role and the fold of the files refine a short recursive definition of the
pins effective in a directory, which `PinMeaning` characterises by what is written in the files above it; the
upsert on aliased slices, the canonical order of a written file, and the whole `schemalock add` command are
proved against that definition. `PinCommand` says what the command writes and when it fails.

Parameters stand for what the code calls but does not define: YAML and JSON text, the hash, regular
expressions, the schema library's compilation, the network, the clock and the disk. Of several pairs of a
YAML mapping that give one name, merged ones among them, the last is taken to count, as the library
decodes them. Strings are sequences of characters, and are ordered by character.

## What the code does that its comments do not say

- `internal/lsp/handlers.go:117-119` and `internal/lsp/server_typed.go:557-559` speak of all open
  documents being requeued. Requeued are those for which, since they were last closed, some request
  stored a text that was then owned (`RequeuesAllOpenIff`); `RequeueCanMissADocument` is a run in which
  a document that a new pin makes owned is left alone.
- `cmd/schemalock/add.go:18-21` has `--file` create a missing file in the shape of an overlay. As the
  topmost file it cannot be read as the root it then is: no pins can be determined there any more
  (`AddPinsOne`).
- `internal/intent/merge.go:53-55` says that versions may contain `@`. The split is on the last `@`, so
  names may and versions may not (`ParseSpecExact`).
- `internal/intent/merge.go:13-15` speaks of a name listed twice at conflicting versions. The code
  rejects a repeated name at equal versions too (`Listed`, `ListedExact`).
- `internal/lsp/schema_walker.go:73-75` and `128-129` hold that two keys never share a line. In a flow
  mapping they do, and the answer can depend on the order in which a map is traversed
  (`SharedLineCanMatter`). It does exactly if several keys tie for the deepest on the cursor's line or,
  on a line without keys, for the shallowest not right of the cursor on the last line above that has any
  (`OrderMattersIff`).
- A publication can come last although its job was superseded after its last check
  (`StalePublicationCanComeLast`). `OutOfOrderExactly` says exactly when two publications come in the
  wrong order.
- Choosing a version, a retry and a text that is not owned ask for no validation, and the last does not
  cancel the one asked for before (`StepAsks`).
- Under `not`, `oneOf` and `if` the strict schema can accept more than the original
  (`StrictWidensUnderNot`, `StrictWidensUnderOneOf`, `StrictWidensUnderIf`). What it takes away or adds
  goes by polarity (`StrictNarrows`, `StrictWidens`).
- The index records a key as it is written, and nothing inside an anchor, a tag or an alias
  (`internal/yamldoc/parser.go:185-187`). A node of the instance is found by the pointer built from its
  path if and only if the path is its own spelling and none of these stands around a node on it
  (`ValidatorFindsNodeIff`); a quoted key, a key below an anchor and a merged one are not
  (`QuotedKeyIsMissed`, `AnchoredKeyIsMissed`, `MergedKeyIsMissed`), and a quoted key is followed into
  the schema with its quotes (`QuotedKeyIsFollowedAsWritten`).
- A property is offered for completion exactly if the schema has it and no positioned key the walk finds
  in the mapping is written so that its escaped text is the property's name (`OffersExactly`). So a key
  that is there is offered again if it is quoted (`QuotedKeyIsOfferedAgain`), below an anchor
  (`AnchoredKeyIsOfferedAgain`) or has a `/` in its name (`SlashNameIsOfferedAgain`), and a missing one
  with a `~` can be withheld (`TildeNameIsWithheld`); `OffersMissingIff` says exactly when an offer is
  right, and `PlainKeyIsOfferedAgainIff` exactly when a plainly written key is offered again.
- Following a pointer into a schema, the code indexes a list out of range exactly at a segment that is no
  property and is a numeral whose value modulo 2^64 is at least 2^63 (`OutOfRangeIff`,
  `WalkOutOfRangeIff`); other large numerals can be read as another index (`IndexExactIff`, `RightItemIff`).

## Model

| member | source | states |
|---|---|---|
| `StrictRewrite.CloseIdempotent` | internal/validator/strict.go:64-69 | rewriting twice equals rewriting once, in every position |
| `StrictRewrite.CloseLocations` | internal/validator/strict.go:58-141 | every location of the rewritten tree is one of the original holding the rewrite of what stood there, or the additionalProperties: false added to a sub-schema that lists properties without it; none disappears |
| `StrictRewrite.CloseKeepsData` | internal/validator/strict.go:71-125 | what stands in a data position (enum, const, default, a keyword the walk does not visit) is left as it was |
| `StrictRewrite.MapsKeepTheirNames` | internal/validator/strict.go:64-80 | a map of sub-schemas is not itself closed, even if it has a name "properties": wherever it stands, the rewrite has it with the same names, each holding the rewrite of its sub-schema |
| `StrictRewrite.StrictNonObject` | internal/validator/strict.go:25-29 | a document that is not an object is returned unchanged |
| `StrictShape.StrictExactly` | internal/validator/strict.go:54-141 | for every path of a document: an object there keeps its fields, and gets additionalProperties exactly if the path leads through the keywords that hold schemas, it has an object under properties and no additionalProperties; what is added is false; lists keep their length, other values stay, and nothing else appears |
| `StrictTheorems.StrictIsClosedReading` | internal/validator/strict.go:8-52 | for every schema, cyclic references included, and every instance: the strict schema accepts, and rejects, exactly what the original does when additionalProperties is read as false wherever it is missing beside an object under properties |
| `StrictTheorems.SameVerdict` | internal/validator/strict.go:58-141 | the same at every sub-schema and every bound on references followed |
| `StrictConsequences.AcceptsOrRejects` | internal/validator/strict.go:8-13 | no reading of a schema both accepts and rejects an instance |
| `StrictConsequences.StrictNarrows` | internal/validator/strict.go:64-141 | where acceptance carries over from the closed reading (under an even number of nots, with oneOf and if only over what reads alike open and closed, reachable references included), every instance the strict schema accepts is accepted by the original |
| `StrictConsequences.PositiveKeeps` | internal/validator/strict.go:64-141 | it does carry over wherever there is no not, oneOf or if |
| `StrictConsequences.StrictWidens` | internal/validator/strict.go:111-116 | where rejection carries over, as under an odd number of nots, every instance the strict schema rejects is rejected by the original |
| `StrictConsequences.StrictWidensUnderNot` | internal/validator/strict.go:111-116 | with not it need not: a schema and an instance that only the strict form accepts |
| `StrictConsequences.StrictWidensUnderOneOf` | internal/validator/strict.go:102-109 | nor with oneOf |
| `StrictConsequences.StrictWidensUnderIf` | internal/validator/strict.go:111-116 | nor with if |
| `StrictWalk.WrapStrict` | internal/validator/strict.go:19-52 | decoding, the in-place walk over shared objects from the root, and encoding give exactly the structural rewrite, whatever the order of map iteration |
| `StrictWalk.RewriteInPlace` | internal/validator/strict.go:31-45 | on the objects themselves: the document is afterwards the rewrite of what it was |
| `StrictWalk.Walker.Walk` | internal/validator/strict.go:58-141 | terminates on every reference graph (definition names not yet visited, then subtree), closes only sub-schemas that need it, and leaves nothing below the node to close |
| `StrictWalk.Walker.WalkReference` | internal/validator/strict.go:127-140 | a local reference leads into its definition if the name was not visited before, and otherwise changes nothing; no definition is entered twice in a walk |
| `StrictWalk.LocalDefNameExact` | internal/validator/strict.go:143-160 | a reference is followed exactly if it is #/$defs/ or #/definitions/ and a name that is not empty and has no slash |
| `StrictWalk.Definitions` | internal/validator/strict.go:31-43 | the definitions map aliases nodes of the document itself, those under definitions winning over $defs |
| `StrictWalk.ClosedHolds` | internal/validator/strict.go:64-69 | if exactly the objects to close have been closed, the heap holds the rewritten tree |
| `PinMerge.ParseSpecExact` | internal/intent/merge.go:53-62 | a specifier parses to name and version exactly when it is the two joined by "@", both non-empty, no "@" in the version |
| `PinMerge.ListedExact` | internal/intent/merge.go:29-41 | a list is accepted exactly when all its specifiers are well formed and no name repeats, and gives exactly the pins it has |
| `PinMerge.Merge` | internal/intent/merge.go:22-51 | the nested loops compute the fold of the chain, failing exactly where it is undefined |
| `PinMerge.LastFileWins` | internal/intent/merge.go:22-25 | in the merged set a name has the version of the last file that lists it, and is there exactly if some file does |
| `PinWalk.WalkUp` | internal/intent/walker.go:32-79 | the leaf-to-root collection and root-to-leaf decoding give the chain |
| `PinWalk.Collect` | internal/intent/walker.go:32-57 | the walk terminates and collects the candidate directories up to the first file that declares itself a root |
| `PinWalk.Decode` | internal/intent/walker.go:59-78 | the topmost candidate is decoded as a root, the others as overlays |
| `PinWalk.CandidatesExact` | internal/intent/walker.go:10-31 | the files that apply are those of the directory and its ancestors down from the nearest that declares itself a root |
| `PinWalk.CandidatesOrder` | internal/intent/walker.go:59-60 | they come nearest first |
| `PinWalk.WalkThenMerge` | internal/intent/walker.go:14-31 | for every file system and directory, walking up and merging gives the effective pins: own pins at a root, else the parent's overridden by the own; failing exactly where they are undefined |
| `PinMeaning.DefinedIff` | internal/intent/walker.go:14-79 | the pins of a directory can be determined exactly if every file that applies decodes without unknown fields, declares a version exactly as the topmost, and lists only specifiers, no name twice |
| `PinMeaning.PinnedExact` | internal/intent/walker.go:14-31 | then a name is pinned to a version exactly if the nearest file that applies and lists the name (of the directory and its ancestors, down from the nearest that declares a root or a version) lists it at that version |
| `PinWalk.Lookup.SetFor` | internal/intent/lookup.go:49-71 | with or without the cache the answer is the effective set, and only successes are cached |
| `PinWalk.Lookup.PinFor` | internal/intent/lookup.go:27-41 | the version of the effective set, no pin, or failure |
| `PinWalk.Lookup.Serve` | internal/intent/lookup.go:73-79 | a serial run in which every edit is followed by Invalidate answers as without a cache |
| `PinEdit.UpsertPin` | cmd/schemalock/add.go:122-150 | the copied and then in-place filtered slices hold exactly the upserted lists, no array of the caller is written, and the two flags say whether anything changed and whether a pin was replaced |
| `PinEdit.FilterInPlace` | cmd/schemalock/add.go:139-147 | filtering through the front of the same array keeps exactly the specifiers of other names, in order |
| `PinEdit.Append` | cmd/schemalock/add.go:148-148 | appending writes in place where there is room and otherwise leaves the array as it was |
| `PinEdit.UpsertChangesOnePin` | cmd/schemalock/add.go:122-150 | an upsert into the last file of a chain that merges changes the merged set at exactly that ecosystem and name |
| `PinEdit.UpsertIdempotent` | cmd/schemalock/add.go:133-138 | upserting again changes nothing |
| `PinEdit.EncodeIntent` | internal/intent/intent.go:111-127 | whatever the map order, ecosystems come sorted, each once, each with its list sorted |
| `PinEdit.CanonicalUnique` | internal/intent/intent.go:111-114 | a file has one canonical form |
| `PinEdit.CanonicalKeepsMerge` | internal/intent/intent.go:115-127 | writing every file of a chain in canonical order changes neither the merged set nor whether merging fails |
| `PinEdit.CanonicalTwice` | internal/intent/intent.go:115-127 | sorting twice equals sorting once |
| `PinAdd.FindNearest` | cmd/schemalock/add.go:102-120 | the loop finds the nearest pin file |
| `PinAdd.NearestExact` | cmd/schemalock/add.go:102-104 | that is the file of the directory or ancestor with no file in between |
| `PinAdd.AddPinsOne` | cmd/schemalock/add.go:20-99 | where the effective pins are defined, the registry does not refuse the version and there is a file to write to, found or given by --file, the command succeeds; it changes the pins effective there at exactly the given ecosystem and name, unless it creates the topmost file, which makes them undefined |
| `PinAdd.AddIsLocal` | cmd/schemalock/add.go:20-23 | it changes nothing for a directory that is not at or below that of the file it writes |
| `PinAdd.AddReaches` | cmd/schemalock/add.go:18-99 | for every directory at or below it where the pins are defined: exactly the given pin changes, unless a root in between cuts the directory off or a nearer file lists the name, when nothing does; a created topmost file leaves the pins undefined except for those cut off |
| `PinCommand.AddFailsIff` | cmd/schemalock/add.go:39-98 | the command succeeds exactly if the argument is a specifier, there is a file to write to, its version is published where that is asked, and what is there can be read; it fails with an I/O error exactly if the registry could not be asked or the entry is not a readable file, otherwise with a usage error |
| `PinCommand.AddWrites` | cmd/schemalock/add.go:66-150 | no other file changes; a file that lists the specifier is left alone; otherwise it keeps its declarations, that one list has the specifier once, none other of its name and all of other names it had, the others what they had, all sorted |
| `ResolverChain.Chain.Resolve` | internal/lsp/resolve.go:66-172 | whatever the clock, the network and the disk do: a text with a type is answered for the version the user chose for its group, whatever is pinned, as a preview or an error; else for the pinned one, as pinned or an error; else, with the fallback on, for the latest as unpinned, an error or unindexable; with it off, and for a text without a type, it is unindexable; group and kind are those of the text; an owned document is served with bytes that hash to their integrity, which a manifest fetched for exactly its group, version and kind states, any other without a schema |
| `Resolution.ChainPriority` | internal/lsp/resolve.go:66-172 | the same order of choice, pin and fallback for the result of the chain over any registry, which it asks for exactly the version that comes first |
| `Resolution.OtherOverride` | internal/lsp/resolve.go:93-98 | an override for another group changes nothing |
| `CachingServer.Server.Resolve` | internal/lsp/router.go:29-50 | a cached result is the one computed anew for what the document met of the registry; every result in the cache stays that of its text, override and pin files, and backed by a manifest fetched for it |
| `CachingServer.Server.Store` | internal/lsp/server_typed.go:235-316 | opening and changing: the new session and the effects of a server without caches |
| `CachingServer.Server.DidChange` | internal/lsp/server_typed.go:279-316 | a change without content changes nothing; otherwise as opening |
| `CachingServer.Server.DidClose` | internal/lsp/server_typed.go:322-348 | document, override, cancel entry and cached result go together |
| `CachingServer.Server.Read` | internal/lsp/server_typed.go:355-403 | completion and hover are answered for the current text and resolution |
| `CachingServer.Server.GetDocumentState` | internal/lsp/server_typed.go:642-660 | a document that is not open is answered for without caching anything |
| `CachingServer.Server.SetDocumentVersionOverride` | internal/lsp/server_typed.go:680-697 | the override takes effect at once, for the group of the current text |
| `CachingServer.Server.RetryResolve` | internal/lsp/server_typed.go:699-712 | the back-off of the group ends, nothing resolved before is answered again, and the document is resolved anew |
| `CachingServer.Server.DidChangeWatchedFiles` | internal/lsp/server_typed.go:557-578 | the first event about a pin file invalidates both caches and requeues |
| `CachingServer.Server.RequeueAll` | internal/lsp/handlers.go:124-147 | in any order, each tracked open document is resolved anew and validated |
| `CachingServer.Server.Serve` | internal/lsp/server.go:220-226 | over every serial run of requests, under any clock, network and disk, the server with its caches on top of the registry's resolver answers as one that resolves every document anew against registries that hand out only what they state, each document keeping what it met until it is to be resolved anew; leaving out the completions, hovers and polls changes no effect it has for any other request; and from an empty session, every effect is the one due for the history, in terms of the texts and choices of its requests alone |
| `ServerRun.DocAfterExact` | internal/lsp/server_typed.go:235-348 | after every history a document is open exactly if since its last close it was opened, or changed with content; its version and text are those of the last such request, the text of the opening or the first content of the change |
| `ServerRun.ChosenAfterExact` | internal/lsp/server_typed.go:680-697 | a document has an override exactly if the last choice of a version since its last close was not empty: of that version, for the group of its text at that time |
| `ServerRun.AfterReflects` | internal/lsp/server_typed.go:235-348 | the session after every history holds exactly these documents and choices |
| `ServerRun.StepIsDue` | internal/lsp/server_typed.go:235-712 | after every history, each request has exactly the effects due: a validation of the text just stored in its resolution if it is owned, a bare check of its syntax exactly for a text not owned where no server is proxied, replies for the text last stored, and requeueing for every document that a text was stored for that was owned since its last close |
| `ServerRun.TrackedAreOpen` | internal/lsp/handlers.go:134-138 | in a serial run only open documents have an entry in the cancel table |
| `ServerRun.RequeuesAllOpenIff` | internal/lsp/handlers.go:117-132 | after every history of requests: a change of a pin file requeues a document if and only if, since it was last closed, some request stored a text for it that was then owned; so all open documents exactly if that is so of each |
| `ServerRun.RequeueCanMissADocument` | internal/lsp/handlers.go:117-132 | a run in which a document that becomes owned is not requeued |
| `CdnResolver.CachePathInjective` | internal/lsp/cdn_resolver.go:73-96 | distinct safe items never share a cache path |
| `CdnResolver.CachePathBelowRoot` | internal/lsp/cdn_resolver.go:71-96 | an item has a cache path unless one of its parts is empty, a dot or two, or holds a separator or a zero byte; following the path from the cache root never leads upwards |
| `CdnResolver.KeysApart` | internal/lsp/cdn_resolver.go:46-56 | the keys of back-off and cache tell groups apart, as the names of ecosystems hold no slash |
| `CdnResolver.FetchLogged` | internal/lsp/cdn_resolver.go:104-106 | a request made while its group is on no back-off record respects every earlier failure's window |
| `CdnResolver.FailureNoted` | internal/lsp/cdn_resolver.go:200-205 | a noted failure is on record for as long as it lasts |
| `CdnResolver.ErrorsCleared` | internal/lsp/cdn_resolver.go:226-231 | clearing ends the window of that group only |
| `CdnResolver.AskedAfresh` | internal/lsp/cdn_resolver.go:105-142 | a request made only when the cache has nothing to serve comes after the time to live of every earlier answer to the same question, and its own answer is kept for its time |
| `CdnResolver.Resolver.IsTransientError` | internal/lsp/cdn_resolver.go:209-222 | a back-off is active exactly until its expiry; an expired record is dropped, no other is |
| `CdnResolver.Resolver.NoteTransientError` | internal/lsp/cdn_resolver.go:200-205 | opens a window of errTTL from the moment the failure is noted |
| `CdnResolver.Resolver.GetVersions` | internal/lsp/cdn_resolver.go:98-142 | an answer is that of a request that has just ended or ended less than its time to live before; an unexpired entry is answered without a request; the answer is a failure exactly while a back-off is open, and then an uncleared failure of the group was not over when the call began |
| `CdnResolver.Resolver.GetManifest` | internal/lsp/cdn_resolver.go:154-196 | the same for manifests, by ecosystem, group and version |
| `CdnResolver.Resolver.FetchItem` | internal/lsp/cdn_resolver.go:267-294 | from disk or network, only bytes that hash to the stated integrity are handed out; what each answer of the network leads to; a failure here opens no back-off |
| `CdnResolver.Resolver.Write` | internal/lsp/cdn_resolver.go:290-293 | only hash-checked bytes are written, to the item's own path |
| `CdnResolver.Resolver.Resolve` | internal/lsp/cdn_resolver.go:243-295 | the answer is that for the first version of a list that was served, or could be, during the call, and rests on a manifest of which the same is so; not found otherwise only if such a list is absent or empty, a failure otherwise only if the group is backed off |
| `CdnResolver.Resolver.ResolveAt` | internal/lsp/cdn_resolver.go:335-371 | a success carries bytes that hash to the integrity stated by a manifest within its time to live during the call; not found only if such a manifest is absent, does not list the kind, or the schema is absent; a failure only if the group is backed off, or the request for the schema failed or gave bytes without that hash |
| `CdnResolver.Resolver.ClearTransientErrors` | internal/lsp/cdn_resolver.go:224-231 | the group's window is gone |
| `CdnResolver.Resolver.Serve` | internal/lsp/cdn_resolver.go:34-59 | over every serial run, under any clock, network and disk: no request within errTTL of an uncleared failure of its group, no version list or manifest asked for again before the time to live of its last answer is over, only checked bytes written, and each reply (success, absence or failure) has the reason that Resolve, ResolveAt and GetVersions give, in the history up to its moment and within the time its request took |
| `CompileCache.KeysApart` | internal/lsp/workers.go:176-192 | uses share a key exactly when they compile the same bytes of the same schema: plain and strict keys never meet |
| `CompileCache.Compiler.Compile` | internal/validator/compiler.go:49-88 | a cached key is answered from the cache, a key whose resource was added without success fails again, any other compiles the bytes |
| `CompileCache.Compiler.CompileUse` | internal/lsp/workers.go:163-194 | in strict mode, where the rewrite succeeds, the result is that of parsing and compiling the rewritten bytes, otherwise that of the bytes given; what is cached stays in agreement with it |
| `CompileCache.Compiler.Serve` | internal/validator/compiler.go:49-52 | over every sequence of strict and plain uses each gets what parsing and compiling its own bytes gives, the rewritten ones in strict mode; a failure never becomes a success |
| `Validation.Process` | internal/lsp/workers.go:116-223 | an uncancelled job, with the compile cache, publishes nothing without a schema, the parse error of an unreadable text, else the errors of each typed document against what the bytes of the schema compile to (the rewritten ones in strict mode), in order, each with the message and the position, counted from 0, of its error; or else only the first failure to compile |
| `Validation.ReportPublishes` | internal/lsp/workers.go:116-241 | the report of a job's content, which the protocol delivers, is exactly that |
| `Validation.SkippedIff` | internal/lsp/workers.go:163-168 | the repeated check of the integrity skips no document if and only if there is no schema, or it has the stated hash, or no document has a type |
| `Validation.Prepare` | internal/lsp/workers.go:163-168 | from the resolver chain to the content of the job, under any clock, network and disk: no document is skipped, and a document that is not owned has no content |
| `Validation.Instance.Handle` | internal/lsp/server_typed.go:235-316 | a request to the server on top of the resolver chain is a step of the protocol, with a registry that hands out only what it states |
| `Validation.Instance.Run` | internal/lsp/workers.go:163-168 | under any clock, network and disk, and however handlers, effects and jobs interleave, what happens is a run of the protocol, and no job ever enqueued skips a document |
| `PoolSafety.UncancelledIsNewest` | internal/lsp/server.go:303-319 | in every interleaving a job that is not cancelled is the newest enqueued for its URI, so there is at most one |
| `PoolSafety.CancelledIffSuperseded` | internal/lsp/server.go:312-319 | a job is cancelled exactly when its enqueueing was followed by an enqueueing or close of its URI or by shutdown |
| `PoolSafety.EachJobInOnePlace` | internal/lsp/workers.go:87-114 | each job is being submitted, queued, running, finished or dropped: exactly one of these, once |
| `PoolSafety.PublicationsFollowChecks` | internal/lsp/workers.go:120-223 | what is published is the report of the job, after a check it passed as the newest of its URI; it is published by a cancelled job exactly when something superseded it since that check |
| `PoolChecks.ChecksBeforePublishing` | internal/lsp/workers.go:120-223 | a job that publishes has looked for its cancellation once at the start, once before each document it considered or the end of them, and once before each compilation, no more and no less |
| `PoolChecks.QueueBounded` | internal/lsp/workers.go:68-94 | the queue holds at most four jobs for each worker, and a submission waits only while it is full |
| `PoolChecks.FirstInFirstOut` | internal/lsp/workers.go:87-114 | jobs are taken up in the order they were sent, and those not yet taken are queued |
| `PoolSafety.PublicationsByCheckFollowEnqueueing` | internal/lsp/workers.go:120-223 | publications for a URI ordered by the check they rest on follow the order of enqueueing |
| `PoolSafety.OutOfOrderExactly` | internal/lsp/workers.go:214-222 | two publications come in the wrong order exactly when the first one's job was enqueued after the check of the second |
| `PoolSafety.StalePublicationCanComeLast` | internal/lsp/workers.go:122-131 | a run in which the older job publishes last |
| `PoolSafety.RestDelivers` | internal/lsp/workers.go:55-59 | where a running pool comes to rest every job has finished and the newest uncancelled job of each URI has published its report |
| `PoolSafety.WorkerStepKnows` | internal/lsp/workers.go:151-212 | at every point of a job what is found so far and the documents to come make up its report |
| `PoolSafety.InvariantKept` | internal/lsp/workers.go:60-114 | every step of every goroutine keeps the invariant |
| `PoolProgress.ProgressStep` | internal/lsp/workers.go:102-114 | each step of a submitter or worker leaves fewer to do |
| `PoolProgress.ComesToRest` | internal/lsp/workers.go:102-114 | however steps interleave, without further enqueueing only so many are left |
| `Protocol.StepAsks` | internal/lsp/server_typed.go:247-261 | which requests ask for a validation of which document: those that store an owned text, and a change of a pin file while it is tracked; closing withdraws it, every other request leaves the earlier one standing; the cancel table follows |
| `Protocol.ListedAsks` | internal/lsp/handlers.go:133-146 | the order in which documents are requeued does not matter to what is asked for any of them |
| `Protocol.RunsInStep` | internal/lsp/server.go:303-329 | in every interleaving of handlers, their effects and the pool, the cancel table with the effects still to come holds exactly the tracked documents, each with the validation last asked for |
| `Protocol.AskedIsDelivered` | internal/lsp/server.go:303-329 | where a run comes to rest the newest job of every tracked document is the validation last asked for, was not cancelled, and has published its report |
| `Protocol.SettledBy` | internal/lsp/server_typed.go:247-261 | storing an owned text or changing a pin file makes the validation asked for that of the stored text in its present resolution; reads and whatever concerns other documents keep it so while the registry is taken to answer the same about the document |
| `Protocol.SettledIsDelivered` | internal/lsp/server.go:303-312 | then, at rest, the document's newest job has published the report on its stored text against the schema it now has |
| `Protocol.SessionReflects` | internal/lsp/server_typed.go:235-348 | in every interleaving the session is what the requests handled so far, alone, determine |
| `Protocol.LastTextIsDelivered` | internal/lsp/server.go:303-312 | where a run comes to rest, the newest job of a settled document has published the report on the version and text of the last request that gave one, against the schema that its last choice, the pins and the registry give for it |
| `Pointers.EscapeIsEach` | internal/validator/validate.go:15-22 | replacing first "~" and then "/" escapes each character on its own |
| `Pointers.EscapeByRule` | internal/validator/validate.go:15-22 | by RFC 6901 section 3, "~" becomes "~0" and "/" "~1", any other character stays, and a string is escaped character by character |
| `Pointers.UnescapeEscape` | internal/lsp/schema_walker.go:420-425 | two replacements in sequence undo two in sequence, for every string |
| `Pointers.BuildPointer` | internal/validator/validate.go:160-170 | the loop builds the pointer of a path |
| `Pointers.SegmentsOfPointer` | internal/lsp/schema_walker.go:332-339 | splitting and unescaping a built pointer gives back the path, whatever characters it contains |
| `Pointers.PointerInjective` | internal/validator/validate.go:160-170 | distinct paths have distinct pointers |
| `Pointers.ParentOfPointer` | internal/lsp/schema_walker.go:187-208 | cutting at the last "/" gives the parent's pointer and the last segment |
| `Pointers.DepthOfPointer` | internal/lsp/schema_walker.go:69-69 | the slashes of a pointer count its segments |
| `Pointers.ParseArrayIndex` | internal/lsp/schema_walker.go:362-381 | accepts exactly the canonical numerals and gives what 64 bits keep of their value |
| `Pointers.IndexExactIff` | internal/lsp/schema_walker.go:373-380 | the index is the numeral's value exactly when it is below 2^63 |
| `Pointers.DecimalCanonical` | internal/yamldoc/parser.go:162-162 | a formatted index is canonical and reads as itself |
| `Pointers.CanonicalIsDecimal` | internal/lsp/schema_walker.go:362-381 | the canonical numerals are exactly the formatted numbers |
| `Pointers.BaseTen` | internal/yamldoc/parser.go:162-162 | they are written in base ten |
| `PositionIndex.Walker.WalkNode` | internal/yamldoc/parser.go:131-188 | the recursive walk records exactly the positions of the walk by paths, under their pointers |
| `PositionIndex.BuildIndex` | internal/yamldoc/parser.go:111-115 | the index of a document |
| `PositionIndex.WalkFinds` | internal/yamldoc/parser.go:131-188 | with distinct keys the walk finds for each path what the node has there, and keeps the rest |
| `PositionIndex.IndexExact` | internal/yamldoc/parser.go:24-26 | an entry for a path exactly when a positioned key or item is there, holding its position; no other entry |
| `PositionIndex.PositionAtExact` | internal/yamldoc/parser.go:131-188 | what is at a path: its segments are the source texts of keys and the indices of the entries of a sequence, or of its values where it has no entries; nothing is inside a scalar, an anchor, a tag or an alias |
| `KeySpelling.SpellingFinds` | internal/yamldoc/parser.go:131-196 | what the instance has at a path of values, merged keys included, is what the source has at the spelling of that path, unless an anchor, a tag or an alias stands around a node on the way: then the walk finds nothing there |
| `KeySpelling.ValidatorFindsNode` | internal/validator/validate.go:129-131 | the pointer built from an instance path that is written as its values and in the open finds exactly that node, and otherwise the start, however other keys are written |
| `KeySpelling.ValidatorFindsNodeIff` | internal/validator/validate.go:109-118 | a positioned node of the instance has its position under the pointer of its path if and only if the path is its own spelling and no anchor, tag or alias stands around a node on it |
| `KeySpelling.QuotedKeyIsMissed` | internal/yamldoc/parser.go:190-196 | a quoted key is not found by its value |
| `KeySpelling.AnchoredKeyIsMissed` | internal/yamldoc/parser.go:185-187 | a plainly written key below an anchor is not found |
| `KeySpelling.MergedKeyIsMissed` | internal/yamldoc/parser.go:185-187 | nor is one merged from an alias |
| `Cursor.SortedEntries` | internal/lsp/schema_walker.go:64-81 | the entries, each once, by line and on one line the deepest first |
| `Cursor.ArrangementUnique` | internal/lsp/schema_walker.go:73-81 | if no two keys share line and depth, the order does not depend on map iteration |
| `Cursor.SharedLineCanMatter` | internal/lsp/schema_walker.go:73-75 | otherwise the answer can |
| `CursorOrder.OrderMattersIff` | internal/lsp/schema_walker.go:64-185 | for every index and cursor, all arrangements agree if and only if at most one key decides: the single deepest on the line, or on a line without keys the single shallowest not right of the cursor on the last line above that has any |
| `CursorOrder.DocumentIndexed` | internal/yamldoc/parser.go:24-26 | the index of a document with distinct keys and positions is such an index |
| `Cursor.OpenExact` | internal/lsp/schema_walker.go:117-156 | for any entries the columns of the open keys strictly increase, and the deepest open key not right of a column is the last entry not right of it |
| `Cursor.OpenAbove` | internal/lsp/schema_walker.go:130-139 | the pushing and popping loop computes the open keys above a line |
| `Cursor.LastAtMostIs` | internal/lsp/schema_walker.go:150-157 | an entry not right of a column with none such behind it is the one chosen |
| `Cursor.LastAtMostNone` | internal/lsp/schema_walker.go:158-165 | none is chosen exactly if all are right of the column |
| `Cursor.ContextLocated` | internal/lsp/schema_walker.go:35-185 | however the entries are arranged: on a line with keys, a deepest of them, on its name up to just behind its text and otherwise on its value; on any other line, of the keys above that are not right of the cursor one on the lowest line, there the least deep, beside it at its column and inside it further right; the document if there is none |
| `Cursor.PositionAtCursor` | internal/lsp/schema_walker.go:35-185 | sorting, the scan of the line and the stack of open keys locate the cursor in this way, with the keys already there |
| `Cursor.ExistingKeys` | internal/lsp/schema_walker.go:222-252 | exactly the last segments, as written in the pointers, one below the parent; sorted, each once |
| `Cursor.ExistingKeysExact` | internal/lsp/schema_walker.go:222-224 | in a document's index these are exactly the escaped source texts of the positioned keys and items there |
| `CursorBlocks.OpenKeysAreAncestors` | internal/lsp/schema_walker.go:117-139 | in block mappings the open keys at any line without a key are the ancestors, by pointer, of the last key above, ending in itself |
| `CursorBlocks.CursorInBlocks` | internal/lsp/schema_walker.go:47-51 | so the cursor belongs to the nearest of these indented less than it, or to the document |
| `CursorBlocks.BlockOpen` | internal/lsp/schema_walker.go:130-139 | after each key of a block, on any stack left of it, the stack is extended by that key's chain |
| `CursorBlocks.BlockArranged` | internal/lsp/schema_walker.go:64-81 | the sorted entries of a block document are its keys in the order of the text |
| `EffectiveSchema.EffectiveProperties` | internal/lsp/schema_walker.go:254-294 | the walk with its depth cap computes the merged properties |
| `EffectiveSchema.CollectRequired` | internal/lsp/schema_walker.go:304-318 | the walk adds the required names to those collected |
| `EffectiveSchema.PropertiesExact` | internal/lsp/schema_walker.go:254-262 | on every schema graph, cyclic or not: the properties declared on some path of at most 16 edges, each from the path that beats all others (nearer over later allOf over earlier over $ref) |
| `EffectiveSchema.RequiredExact` | internal/lsp/schema_walker.go:296-302 | the names required on some path of at most 16 edges |
| `EffectiveSchema.SchemaAtPointer` | internal/lsp/schema_walker.go:320-360 | for every pointer: follows exactly the non-empty segments, properties before array items, until one leads nowhere or out of a list |
| `EffectiveSchema.ChildExact` | internal/lsp/schema_walker.go:341-412 | a segment leads to the declared property of that name, else as an index below 2^63 to that element of the prefix or beyond it to the items of the newer keyword before those of the older, and any other nowhere |
| `EffectiveSchema.OutOfRangeIff` | internal/lsp/schema_walker.go:362-398 | a segment is an index out of range exactly if it is no property and is a canonical numeral whose value modulo 2^64 is at least 2^63 |
| `EffectiveSchema.WalkOutOfRangeIff` | internal/lsp/schema_walker.go:327-360 | following a pointer goes out of range exactly if one of the segments it comes to does |
| `EffectiveSchema.RightItemIff` | internal/lsp/schema_walker.go:383-412 | the item followed is the one its numeral means, whatever its size, if and only if the value is below 2^63, or its low 64 bits are and are beyond the prefix or give the same element |
| `EffectiveSchema.PointerLeadsAlong` | internal/lsp/schema_walker.go:320-326 | the pointer of a path without empty segments leads along that path |
| `EffectiveSchema.QuotedKeyIsFollowedAsWritten` | internal/lsp/schema_walker.go:327-360 | a quoted key, the empty one included, is indexed with its quotes, and its pointer leads to the property whose name has the quotes |
| `Completion.CompleteProperties` | internal/lsp/schema_walker.go:460-547 | exactly the schema's properties not already listed, each once, required ones first and each group alphabetical; only the first is preselected, and only if required |
| `Sorting.StringLeqExact` | internal/lsp/schema_walker.go:535-545 | the order of strings is lexicographic: a prefix first, otherwise by the first character that differs |
| `Completion.OffersExactly` | internal/lsp/schema_walker.go:460-486 | for every name: offered exactly if the schema has it on a path of at most 16 edges and no positioned key of the mapping has it as its escaped source text |
| `Completion.OffersMissingIff` | internal/lsp/schema_walker.go:460-486 | for every name, the offer is right (made exactly if the name is declared and the mapping of the instance lacks it) if and only if, for a declared name, the mapping has the key exactly if some positioned key there is written as the unescaped name |
| `Completion.OffersPlainKeys` | internal/lsp/schema_walker.go:460-486 | for names without "~" and "/" that condition is that a key of that name is there exactly if the walk finds one written so |
| `Completion.PlainKeyIsOfferedAgainIff` | internal/lsp/schema_walker.go:222-242 | a key that is there, written as such a name, is offered again if and only if an anchor, a tag or an alias stands around a node on the way to it, or it has no position |
| `Completion.AnchoredKeyIsOfferedAgain` | internal/lsp/schema_walker.go:222-242 | a plainly written key in a mapping with an anchor is offered again |
| `Completion.QuotedKeyIsOfferedAgain` | internal/lsp/schema_walker.go:222-242 | a quoted key that is there is offered again |
| `Completion.TildeNameIsWithheld` | internal/lsp/schema_walker.go:222-242 | a missing key with "~" is not offered where another is written as its name unescaped |
| `Completion.SlashNameIsOfferedAgain` | internal/lsp/schema_walker.go:222-242 | a name with "/" is offered whether it is there or not |
| `Diagnostics.Collector.Collect` | internal/validator/validate.go:109-156 | depth first, the reports of the leaves in order; so exactly the diagnostics that some leaf of the tree reports are added, an ordinary leaf its message at the position indexed for its path or else the start |
| `Diagnostics.Collector.CollectNames` | internal/validator/validate.go:123-139 | one diagnostic a name, anchored at the child or else the parent or else the start |
| `Diagnostics.Validate` | internal/validator/validate.go:51-107 | empty exactly for an accepted document and for one without a body, which is not checked; otherwise exactly one list sorted by line, column and message of what the leaves report: an ordinary leaf its message at the position indexed for its path or else the start, a leaf with unknown names each name at its own, its mapping's or the start |
| `Diagnostics.ErrorsConserved` | internal/validator/validate.go:109-118 | one diagnostic for each ordinary leaf and one for each name of a leaf that lists unknown names |
| `Diagnostics.NeverEmpty` | internal/validator/validate.go:109-118 | a rejected document never yields an empty list |
| `Diagnostics.NameReported` | internal/validator/validate.go:112-118 | every unknown name has its diagnostic at its anchor |
| `Diagnostics.LeafReported` | internal/validator/validate.go:153-155 | every diagnostic that a leaf reports, an ordinary one its message at the position indexed for its path or else the start, is in the list, as often as it reports it |
| `Diagnostics.ListingLists` | internal/validator/validate.go:51-156 | a diagnostic is in the list exactly if some leaf of the error tree reports it, and the list is in order |
| `Diagnostics.LeafAtItsNode` | internal/validator/validate.go:141-156 | where its path is written as its values and in the open, an error that lists no unknown names is reported with its message at the position of its node, and otherwise at the start, nowhere else |
| `Diagnostics.LeafAtItsNodeIff` | internal/validator/validate.go:141-156 | an error at a positioned node is reported there if and only if its path is its own spelling and stands in the open, or the node is at the start and nothing is found at the path |
| `Diagnostics.SortedListUnique` | internal/validator/validate.go:95-106 | the list does not depend on the order in which the library lists the leaves |
| `Diagnostics.AnchoredAtKey` | internal/validator/validate.go:112-118 | where its path and that of its mapping are written as their values and in the open, an unknown field is reported at its own key, else at its mapping's, else at the start |
| `Diagnostics.AnchoredAtKeyIff` | internal/validator/validate.go:112-139 | a positioned field is reported at its own key if and only if its path is its own spelling and stands in the open, or the key is at the start and neither it nor its mapping is found |
| `Diagnostics.AnchoredFieldIsMisplaced` | internal/validator/validate.go:112-139 | a plainly written field of a mapping with an anchor is reported at the mapping |

## Left out

- Strict rewrite of text: decoding and encoding of JSON and their errors; the model starts from the decoded value.
- Keywords the strict walk does not visit (prefixItems, contains, dependentSchemas, propertyNames, unevaluated keywords) are opaque functions of keyword, value and instance; $id, $anchor and percent-encoded fragments are part of the parameter that turns a reference into a path.
- A reference to a place of the document that holds several schemas (such as `#/properties`) is judged by a parameter, as one to another document is: JSON Schema Core 2020-12, section 9.4.2 leaves it undefined.
- PinMerge.Merge: says whether merging fails, not with which error, since of several bad files or lists the one met first depends on map order.
- Pin files that change between the check for their existence and their reading, and the paths kept with loaded files for messages.
- PinWalk.Lookup.Serve: serial runs only; the lock of the lookup allows concurrent callers.
- CachingServer.Server.Serve: serial dispatch only, which is how handlers are called; the ownership callback of the proxied server runs on another goroutine and is not covered.
- CachingServer.Server.Read: what completion and hover compute from text, result and position is in Completion and EffectiveSchema; hover text, enum values, bootstrap of kinds and the proxied answers are presentation.
- The router's and the resolver's single flight for concurrent requests: in a serial run there is never more than one.
- CdnResolver.Resolver.Resolve: the back-off and cache keys are strings; with the one ecosystem in use they are one to one with groups.
- CompileCache.Compiler.Compile: the library's compilation is a function of the document alone, so schemas that refer to other cached schemas by URL are not covered, nor a version of the schema's `$id` clashing with the cache's URLs.
- Pool: deadlines and the order in which waiting goroutines proceed; every order is allowed. Whether a publication with a cancelled context still reaches the client is up to the connection.
- Validation.Process: the text of compile errors after the document's type, and strict mode changing while a job runs.
- CursorBlocks.OpenKeysAreAncestors: block mappings only, of the keys the index has; a sequence item puts its dash and its first key on one line, and there column scope and pointer ancestry differ.
- Completion items' documentation, snippets, tags and text edits.
- Diagnostics.Validate: the internal errors of normalising a document, and the severity and source, which are constants.
- The yaml-language-server subprocess, JSON-RPC transport, the notification channel, command-line flags and exit codes, and WriteIntent's atomic rename.
- PinAdd.AddPinsOne, like PinCommand.AddFailsIff: leaves out a file given by `--file` under another name than `schemalock.yaml`, which applies nowhere, and failures to write.
