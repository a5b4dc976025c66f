# A verified model of the Kubo core

This project models, in Dafny, the parts of a Kubo (IPFS) node whose correctness
is hardest to see from the code, and proves what they promise.

- **Garbage collection** (`Cids`, `DagStore`, `Marking`, `LinkPaths`, `Collector`,
  `RemoveBlocks`, `PinningAdder`, `GcProtocol`). Marking fills one set in four
  phases that skip what is already in it; the sweep deletes every stored block whose
  multihash is not that of a marked CID. `Marking` says what set is computed, `LinkPaths`
  says the same by chains of links between blocks, version by version and codec by codec,
  `Collector` proves that the imperative code computes it, with every error path, and
  `GcProtocol` puts adders, pin editors, collectors and block removers side by
  side as interleaved atomic steps under the shared PinLock and the exclusive GCLock.
- **The router graph** (`RouterConfig`, `RouterBuilder`). Named routers refer to
  each other; a depth-first search builds them, with a memo table and a set of visited names
  that is never cleared. A second traversal without any cycle check looks for an
  HTTP router.
- **Ranged reading** (`CatCommand`, `ApiFile`). The server slices files laid end to
  end; the client is a seekable file over that, with a shortcut for short forward seeks.
- **Concealing configuration** (`ConfigScrub`). A wildcard deletion on nested
  objects and the independent check that refuses a key.
- **Registries and counters** (`StreamRegistry`, `OnlyOne`, `ReqLog`,
  `NoFlushLimiter`, `Bootstrap`) and **error texts** (`NotFoundErrors`).

Code that changes things step by step is modelled by classes and loops, each
method tied by its postcondition to a function of the old state; what is promised
is then proved of that function, over all inputs, all runs or all interleavings.

`dafny verify dfyconfig.toml` checks the whole project.

## What is assumed of the libraries

- A stream of pins may end early once the context is cancelled, with or without an error.
- A DAG walk visits the root, then children, in any order, and reads the links of
  a node only when its visit was the first. A CIDv0 and its CIDv1 form have the same
  links. Reading the links of a raw node needs no fetch and yields none.
- The PinLock is shared, the GCLock exclusive.
- The blockstore lists each stored block once, as a raw CIDv1.
- A pin check answers about at most as many CIDs as it was asked about, and calls
  pinned every CID whose multihash occurs below a recursive pin or as a direct pin.
- Grouping a bootstrap list by peer keeps each peer's addresses in order and gives the
  peers in any order.
- The text of a CID that is accepted prints back as itself.
- Case folding has one representative per character; on the letters of the two words
  "identity" and "privkey" it agrees with lower-casing.
- A file's size is the number of its bytes.

## Where the code differs from its documentation or from what one expects

- The documentation of `GC` says that all blocks used internally by the pinner are
  kept. Direct pins enter the set before the internal pins are walked, so the walk
  stops at a direct pin. `MarkedAsDocumentedIffUnmasked` gives the exact condition
  under which nothing is lost, `DirectPinMasksExample` a store in which something is.
- A cancelled marking need not fail: a root stream that the cancellation closes ends its
  phase without an error (`TruncatedMarkingExample`). What is not marked then is safe
  only because the sweep asks for the context's error before every key (`Run`).
- `routerSupportsHTTPProviding` is also called on configurations that were never
  accepted (core/commands/routing.go:173). With a cycle before the first HTTP router it never
  returns (`CycleFirstDiverges`); `TerminatesIff` says exactly when it does.
- `scrubValue` is documented to return an error when the key is missing. It never
  does: the value that is not an object is handed on as a nil map, which is not equal to nil
  (`ScrubMapInternal`).
- A key that `matchesGlobPrefix` lets through is answered alike before and after
  scrubbing, but the reason of a failed lookup can change (`AnswersAgreeIff`,
  `ReasonChangesExample`).
- Showing the configuration conceals `API.Authorizations`, and all that is below
  `Identity.PrivKey`; asking for such a key is not refused (`ConcealedButAnswered`,
  `ConcealedButAnsweredExample`).
- `RmBlocks` sizes its channel so that sending never blocks under the lock. That holds
  unless the pin check of an empty list fails (`RmBlocks`, `FailedCheckOfNothingExample`).
- `bootstrapRemove` loses a peer that is listed without any address when some address
  of it is asked for (`Remove`, `VanishingPeerExample`); every pair of peer and address
  is accounted for.
- A seek past the end of a remote file fails within the forward-seek limit and
  succeeds beyond it (`SeekSucceedsIff`, `SeekPastEndExample`).
- `ReadAt` takes a connection that ends too early for the end of the file (`ReadAt`,
  `CutReadAtExample`).
- An extra close of a shared repository closes it under its last holder (`ExtraClose`,
  `ExtraCloseExample`).
- Once stream ids have wrapped around, a stream still registered is overwritten and its
  peer's count stays too high (`CountsAndTags`), and a late close closes another stream
  (`LateCloseExample`).
- `bootstrapAdd` compares texts, so one address can be listed in two spellings
  (`SpelledTwiceExample`); `bootstrapRemove` respells every entry it keeps.

## Model

| member | source | states |
|---|---|---|
| DagStore.ClosedBaseLosesNothing | gc/gc.go:191-193 | a walk that skips an already marked set closed under links finds, together with that set, the same closure as a walk that starts afresh |
| Marking.SharedSetIsOneClosure | gc/gc.go:229-271 | after the recursive and best-effort phases the shared set is exactly the closure of all their roots, and is closed under readable links |
| Marking.MarkedAsDocumentedIffUnmasked | gc/gc.go:273-282 | the marked set is always within the documented one (closures of recursive pins, best-effort roots and internal pins, plus direct pins) and equals it exactly when no direct pin below an internal pin hides a child not reached otherwise |
| Marking.UnmaskedIsComplete | gc/gc.go:281-290 | without such masking everything below an internal pin is marked |
| Marking.UnmaskedWhenDirectPinsAreApart | gc/gc.go:273-290 | it is enough that direct pins below internal pins lie in the walked closure |
| Marking.DirectPinMasksExample | gc/gc.go:273-282 | a concrete store and pins on which marking succeeds but a documented node is not marked |
| Marking.InternalDagsCompleteIff | gc/gc.go:240-290 | when marking succeeds unmasked, the internal pins' DAGs are all readable exactly when the nodes marked earlier without a strict read are |
| Marking.SweepKeepsMarks | gc/gc.go:41-49 | after a sweep marking succeeds again with the same set, so a second collection removes nothing |
| LinkPaths.NextByLinks | gc/gc.go:201-208 | the children of a node are exactly the links of its block, if stored: read as dag-pb for a version-0 CID, none for a raw one |
| LinkPaths.ClosureByLinks | gc/gc.go:190-208 | a closure holds exactly what chains of links through stored blocks lead to from the roots as written, whatever their version |
| LinkPaths.WantedIsMarked | gc/gc.go:229-290 | the multihash of everything linked below a recursive pin or best-effort root, and of every direct and internal pin, is marked |
| LinkPaths.MarkedIsClaimed | gc/gc.go:229-290 | and nothing is marked that is neither pinned nor linked below a root |
| LinkPaths.WalkedCleanByLinks | gc/gc.go:157-271 | the first two phases meet no error exactly when the pin stream is whole, all nodes linked below recursive pins are secure, stored and decodable, and those below best-effort roots are so or missing |
| LinkPaths.UndecodableFailsMarking | gc/gc.go:240-251 | a stored block below a best-effort root that does not decode makes marking fail |
| Collector.Collector.FetchLinks | gc/gc.go:217-251 | rejected hashes end the walk; unreadable links are noted and reported, except missing blocks in best-effort mode; otherwise exactly the links of the block are returned; once cancelled a read may fail, or the walk end instead of reporting |
| Collector.Collector.Visit | gc/gc.go:191-208 | the node is marked, a version-0 one as dag-pb of version 1, and its links are followed only on the first visit, whatever mark phase it happens in |
| Collector.Collector.Walk | gc/gc.go:190-197 | whatever the order of visits, everything newly marked is reached around the old set, unless cancelled it has its children marked, and an error means an unreadable reached node or a cancellation |
| Collector.Collector.Descendants | gc/gc.go:157-200 | unless cancelled: no error exactly when the root stream is whole and all nodes reached around the old set are readable, and then exactly those are added; a stream that the cancellation closes ends it at once without an error |
| Collector.Collector.Phase | gc/gc.go:229-238 | an error that ends a phase is noted and reported, so unless cancelled the error flag tells whether the phases so far were clean; only a cancellation stops the marking here |
| Collector.Collector.AddDirect | gc/gc.go:273-279 | direct pins enter the set alone; an error in their stream ends the marking, a stream closed early does not |
| Collector.Collector.MarkWalked | gc/gc.go:229-271 | unless cancelled, the first two phases are clean exactly when no error is noted, and have then marked the closure of both kinds of roots |
| Collector.Collector.ColoredSet | gc/gc.go:212-297 | unless cancelled, succeeds exactly when no phase meets an error, and then returns exactly the marked set, which has the multihash of every wanted block and of none unclaimed; otherwise fails with the documented error after a report; cancelled, it fails with that or the context's error, or succeeds, with an empty set if all streams are closed at once |
| Collector.Collector.ToRawCids | gc/gc.go:31-39 | the new set holds the raw CIDv1 of every marked multihash and nothing else |
| Collector.DoomedHolds | gc/gc.go:105-108 | the keys to delete are the unmarked ones that the store does not refuse, each once |
| Collector.Collector.SweepKeys | gc/gc.go:96-127 | exactly the doomed keys dealt with are deleted, and the reports sent are exactly those due on them in order; all of them unless cancelled; under a context cancelled before none, and after a cancellation at most one more deletion, and at most one unreported |
| Collector.Collector.Sweep | gc/gc.go:93-134 | a delete failure is closed by the documented error, even after a cancellation if that report gets through; only when it does not is the rest skipped |
| Collector.SweepReportsRemovals | gc/gc.go:105-123 | the removals reported are the keys deleted |
| Collector.SweptStore | gc/gc.go:96-127 | which multihashes the sweep removes: none that is marked or refused, and unless cancelled all others, each reported once |
| Collector.CollectedStore | gc/gc.go:31-39 | seen by multihash, in terms of the marked set before the codecs were stripped: no marked block goes, all unmarked deletable ones do if all keys are dealt with, and the reports tell the truth |
| Collector.Collector.Collect | gc/gc.go:74-148 | after a marking exactly the blocks with an unmarked multihash go, unless cancelled or refused; none at all if the context was cancelled before; a failure of the listing or of the datastore's own collection is reported last |
| Collector.Collector.Run | gc/gc.go:50-152 | no block linked below a recursive pin or best-effort root, nor any pinned one, is ever deleted; an error or a cancellation while marking, or a listing error, deletes nothing, even when the cancelled marking ends without an error and with too small a set; after a later cancellation at most one block goes; otherwise exactly the unmarked deletable blocks go, each is reported once, and every other unmarked one has its error |
| Collector.TruncatedMarkingExample | gc/gc.go:253-263 | a cancelled marking that succeeds without a best-effort root it should have marked; the collection deletes nothing |
| RemoveBlocks.UnpinnedHolds | blocks/blockstoreutil/remove.go:85-94 | every answer ends up either refused or still to remove, as it says |
| RemoveBlocks.Remover.FilterPinned | blocks/blockstoreutil/remove.go:78-96 | a failed check leaves nothing to remove; otherwise the unpinned are left in order and each pinned one is refused |
| RemoveBlocks.Remover.RemoveOne | blocks/blockstoreutil/remove.go:49-68 | the block goes unless the store fails on it, with the result the options call for |
| RemoveBlocks.Remover.TryAll | blocks/blockstoreutil/remove.go:48-69 | the loop removes what the store does not fail on; each failure and each missing block is told, each removal unless quiet, and nothing else |
| RemoveBlocks.Remover.RmBlocks | blocks/blockstoreutil/remove.go:37-71 | exactly the removable blocks go, protected ones never; every refusal, failure and missing block is told and none made up; results fit the channel unless the check of an empty list fails |
| RemoveBlocks.FailedCheckOfNothingExample | blocks/blockstoreutil/remove.go:40-40 | the failed check of an empty list sends one result into a channel without room |
| PinningAdder.PinningAdder.PinAll | core/coreapi/dag.go:49-58 | one recursive pin per distinct node, in order, until one is refused |
| PinningAdder.PinningAdder.AddMany | core/coreapi/dag.go:40-61 | no pin is asked for before all blocks are stored; success exactly when storing, pinning and flushing all succeed |
| GcProtocol.StepperOk | gc/gc.go:53-127 | each step keeps what the stepping thread relies on: blocks an add stored are stored, marks of a collector cover the pins |
| GcProtocol.OthersOk | core/coreapi/dag.go:27-37 | no step of one thread disturbs what another relies on |
| GcProtocol.InvKept | core/coreapi/dag.go:24-61 | the invariant of locks and threads is kept by every atomic step |
| GcProtocol.StepSpares | blocks/blockstoreutil/remove.go:44-68 | no step deletes a block below a recursive pin or directly pinned |
| GcProtocol.PinsChangeByRequest | core/coreapi/pin.go:40-48 | a pin appears only by an add or an edit asking for it and disappears exactly when unpinned |
| GcProtocol.PinnedBlocksSurvive | gc/gc.go:53-127 | in every interleaving a stored block below a recursive pin stays stored while the pin exists |
| GcProtocol.LinkedBlocksSurvive | gc/gc.go:53-127 | the same told by links: a stored block at the end of a chain of links from a pin of either version stays stored while the pin exists |
| GcProtocol.DirectlyPinnedBlockSurvives | gc/gc.go:273-279 | the same for a stored block while it is pinned directly |
| GcProtocol.AddIsNotInterrupted | core/coreapi/dag.go:24-38 | no collection or removal falls between a block's add and its pin; at the flush every node is stored, and pinned unless unpinned by someone |
| GcProtocol.StrictClosureIsContentClosure | gc/gc.go:217-238 | a recursive phase without errors has followed the whole content below the pins, not only what is stored |
| GcProtocol.MarkedSetProtects | gc/gc.go:229-279 | the marked set of a successful marking covers all that the protocol protects |
| GcProtocol.PinCheckProtects | blocks/blockstoreutil/remove.go:78-96 | what the pin check leaves to remove is unprotected |
| GcProtocol.AddManyIsARun | core/coreapi/dag.go:40-61 | what an add of many nodes does to store and pins, up to any refused pin, is a run of an adding thread's own steps |
| GcProtocol.SweepIsARun | gc/gc.go:96-127 | deleting any unmarked blocks, as a sweep does, is a run of a sweeping thread's own steps |
| GcProtocol.RemovalIsARun | blocks/blockstoreutil/remove.go:49-68 | removing what passed the pin check, but for what the store fails on, is a run of a removing thread's own steps |
| RouterConfig.SupportsHttpIsReachability | config/routing.go:247-270 | on a router that can be built the unguarded recursion returns, within as many nested calls as there are routers and one, whether a router of type HTTP is reachable |
| RouterConfig.TerminatesIff | config/routing.go:249-270 | on every configuration, exactly when the recursion ever returns and with which answer: no when nothing reachable is HTTP or cyclic, yes when a chain of children leads to an HTTP router past children that have neither |
| RouterConfig.CycleFirstDiverges | config/routing.go:259-266 | a router that lists itself before an HTTP router: the recursion never returns |
| RouterConfig.HttpFirstAnswers | config/routing.go:259-266 | the same with the HTTP router first: yes, although the graph cannot be built |
| RouterConfig.BuildableByCases | routing/delegated.go:94-141 | what can be built, type by type: an HTTP router with an endpoint, a DHT, a parallel or sequential composition |
| RouterConfig.SupportsSound | config/routing.go:256-266 | a yes always means a reachable HTTP router, cycles or not |
| RouterConfig.ProviderAnswersIff | config/routing.go:234-245 | on every configuration, exactly when the question for an HTTP provider is answered with no and with yes, by the router of the provide method |
| RouterConfig.MethodNamesAre | config/routing.go:162-162 | the five methods by name |
| RouterConfig.CheckMethods | config/routing.go:70-97 | passes exactly the tables with the five methods and no other, and an error names a method really missing or unsupported |
| RouterBuilder.Builder.Parse | routing/delegated.go:68-152 | terminates on every configuration; success returns the created router; an error names a reachable router that really has the fault |
| RouterBuilder.Builder.ParseChildren | routing/delegated.go:101-138 | children become parts in order, each the one router created for its name with the child's error tolerance and timeout, and its delay if parallel |
| RouterBuilder.CreatedAsConfigured | routing/delegated.go:94-147 | every created router is made as configured, setting by setting |
| RouterBuilder.Builder.LoopIsReal | routing/delegated.go:81-84 | a name visited but not created is on the current chain, so the reported loop is a cycle |
| RouterBuilder.CreatedIsBuildable | routing/delegated.go:147-151 | everything reachable from a created router is defined and well-formed, without a cycle |
| RouterBuilder.ExplainedIsNotBuildable | routing/delegated.go:81-92 | a router about which an error is reported cannot be built |
| RouterBuilder.Builder.ParseMethod | routing/delegated.go:44-47 | succeeds exactly when every router reachable from the name is defined and well-formed and the references have no cycle, whatever was created before |
| RouterBuilder.Builder.BuildSlot | routing/delegated.go:43-60 | one turn of the loop fills exactly the slot of its method, and an error is a real fault below the name it asked for |
| RouterBuilder.Builder.BuildSlots | routing/delegated.go:42-63 | the loop fills the slot of each method with the router created for its name |
| RouterBuilder.Builder.ParseAll | routing/delegated.go:34-66 | success exactly when the table is complete and every named router can be built, independent of the iteration order; then each of the five slots holds the router of its method and every router is made as configured; an error is a real fault |
| RouterBuilder.CreatedBottomUp | routing/delegated.go:120-147 | a composite is made only of routers created before it, all the way down |
| RouterBuilder.OneRouterPerName | routing/delegated.go:75-79 | two names share a router object exactly when they are equal |
| RouterBuilder.AcceptedHttpProvider | config/routing.go:234-245 | on an accepted configuration the provider check terminates and says whether a router of type HTTP is reachable |
| CatCommand.AddReader | core/commands/cat.go:172-183 | the reader added extends the output by the rest of the file, cut at the limit |
| CatCommand.TakeFile | core/commands/cat.go:156-183 | one turn of the loop extends the slice read so far by the part of the file in range |
| CatCommand.Cat | core/commands/cat.go:124-186 | the readers concatenate to the requested slice of the joined files, with its length; an error comes exactly when a non-file precedes the end of the slice |
| CatCommand.SliceByIndex | core/commands/cat.go:124-186 | which bytes a slice has, and how many |
| CatCommand.FirstErrorByEntry | core/commands/cat.go:130-155 | which error comes, by what the first entry that is not a file is |
| ApiFile.ServeKeepsSync | client/rpc/apifile.go:98-144 | every call, failed or not, leaves an open stream equal to the file from the position on |
| ApiFile.ServeLikePlain | client/rpc/apifile.go:98-144 | a successful call answers as a local random-access file |
| ApiFile.SeekGoesThere | client/rpc/apifile.go:125-144 | a successful seek is at the offset from the start, the position or the end, as asked, and answers that |
| ApiFile.ReadGives | client/rpc/apifile.go:98-104 | a read gives the file's bytes at the position, up to what is wanted, arrives and is there, and exactly when it tells an error or the end |
| ApiFile.SeekSucceedsIff | client/rpc/apifile.go:125-144 | exactly when a seek succeeds, by target, stream and transport, with or without an open stream |
| ApiFile.SeekPastEndExample | client/rpc/apifile.go:136-143 | a target past the end fails within the forward-seek limit and succeeds beyond it |
| ApiFile.NoOpWithoutStreamExample | client/rpc/apifile.go:132-134 | after a refused request a seek to the same place succeeds, but no read there does |
| ApiFile.EndOfFileIsTheEnd | client/rpc/apifile.go:98-104 | the end of the file is reported only at the end, and always when a read that wants bytes finds none |
| ApiFile.RunsLikePlain | client/rpc/apifile.go:78-144 | every run of successful calls gives the replies and the position of a local file |
| ApiFile.ApiFile.Reset | client/rpc/apifile.go:78-96 | the new stream is the file from the position on; negative or refused requests leave none |
| ApiFile.ApiFile.Read | client/rpc/apifile.go:98-104 | takes bytes off the stream and moves the position along, also when an error or the end comes with them |
| ApiFile.ApiFile.Seek | client/rpc/apifile.go:125-144 | no-op, forward skip or new request, as the specification of the handle says, and on success at the place asked for |
| ApiFile.ApiFile.ReadAt | client/rpc/apifile.go:106-123 | gives the file's bytes at the offset, without error exactly when all wanted are there; end of file is right unless the transport gives up early with an unexpected end, exactly then it is wrong |
| ApiFile.CutReadAtExample | client/rpc/apifile.go:106-123 | a connection that ends before the first byte of a file with content is taken for the end of the file |
| ConfigScrub.SplitJoins | core/commands/config.go:180-180 | splitting a key at dots loses nothing |
| ConfigScrub.PartsHoldNoDot | core/commands/config.go:180-180 | and no part holds a dot |
| ConfigScrub.JoinSplits | core/commands/config.go:180-180 | and joining parts without dots loses nothing either |
| ConfigScrub.BlockedByCharacters | core/commands/config.go:182-190 | which keys are blocked, part by part and character by character up to case |
| ConfigScrub.CaseDoesNotMatter | core/commands/config.go:188-188 | keys that differ in case only are blocked alike |
| ConfigScrub.MatchesGlobPrefix | core/commands/config.go:179-193 | true exactly when parts and patterns match, up to case, as far as both go |
| ConfigScrub.ScrubEither | core/commands/config.go:285-291 | an object is scrubbed, any other value deleted |
| ConfigScrub.ScrubMapInternal | core/commands/config.go:300-319 | the result is the scrubbed object whatever the iteration order, and never an error |
| ConfigScrub.UnblockedAnswersAgree | core/commands/config.go:179-193 | a key that is not blocked is answered alike before and after scrubbing, up to the reason of a failure, which is given exactly |
| ConfigScrub.AnswersAgreeIff | core/commands/config.go:179-193 | the two answers are equal exactly when the lookup does not fail at a deleted leaf |
| ConfigScrub.ReasonChangesExample | core/commands/config.go:300-319 | a key that is not blocked whose failed lookup is explained differently after scrubbing |
| ConfigScrub.LeavesLeftAreUnblocked | core/commands/config.go:300-319 | the leaves left are exactly the leaves whose path is not blocked |
| ConfigScrub.NothingBelowSelected | core/commands/config.go:300-303 | at a path the whole selector matches only an emptied object can be left, below it nothing |
| ConfigScrub.ScrubIdempotent | core/commands/config.go:300-319 | scrubbing twice is scrubbing once |
| ConfigScrub.ScrubsCommute | core/commands/config.go:243-256 | selectors can be applied in any order |
| ConfigScrub.ShownLeaves | core/commands/config.go:243-258 | what is shown is exactly what no selector blocks |
| ConfigScrub.SecretsNeverShown | core/commands/config.go:243-258 | a leaf at or below a private key, an authorization or the key of a pinning service, spelled in any case, is never shown |
| ConfigScrub.PinningKeysRefused | core/commands/config.go:96-100 | asking for the key of a pinning service, or above or below it, is refused in any case |
| ConfigScrub.PrivateKeyRefusedIffShort | core/commands/config.go:90-94 | of the keys the private-key selector blocks, exactly those of at most two parts are refused |
| ConfigScrub.ConcealedButAnswered | core/commands/config.go:85-100 | exactly the leaves that showing the configuration conceals but asking for their key still gives |
| ConfigScrub.ConcealedButAnsweredExample | core/commands/config.go:85-100 | a secret at API.Authorizations that is concealed when shown and given when asked for |
| NotFoundErrors.RecognisedPrintsBack | client/rpc/errors.go:74-137 | a recognised message is printed back exactly by the rebuilt error |
| NotFoundErrors.NamedIsRecognised | client/rpc/errors.go:74-137 | a message that names a missing CID, of version 0 or in base 32, or none, gives an error with that CID, wrapped exactly when there is text around it |
| NotFoundErrors.RecognisedIsNamed | client/rpc/errors.go:74-137 | and no other message is recognised |
| NotFoundErrors.FallbackPrintsBack | client/rpc/errors.go:34-66 | turning any message into an error keeps its text; the empty one is no error |
| NotFoundErrors.WhichError | client/rpc/errors.go:34-66 | which kind of error every message gives: none, a missing CID, a missing block by the blockstore's phrase, or plain text |
| NotFoundErrors.BreaksAre | client/rpc/errors.go:68-72 | the characters at which the text of a CID ends |
| NotFoundErrors.KeyHasNoBorder | client/rpc/errors.go:76-80 | the key phrase cannot overlap itself |
| NotFoundErrors.KeyFoundAfterPrefix | client/rpc/errors.go:80-88 | after a prefix without the phrase, the phrase is found right behind it |
| NotFoundErrors.WrappedIsRecovered | client/rpc/errors.go:74-137 | a wrapped not-found error is recovered with its CID, prefix and suffix |
| NotFoundErrors.RecoveredIsFixed | client/rpc/errors.go:26-28 | parsing undoes printing |
| NoFlushLimiter.StepKeepsInv | core/commands/files.go:65-74 | counter plus callers between check and increment stay within limit plus callers minus one |
| NoFlushLimiter.CounterBound | core/commands/files.go:50-75 | with N callers and limit L no reachable counter exceeds L + N - 1, resets anywhere |
| NoFlushLimiter.CounterBoundIsReached | core/commands/files.go:65-74 | some run reaches that bound, for every limit and set of callers |
| NoFlushLimiter.ReachableCounters | core/commands/files.go:50-75 | exactly the counters up to the bound are reachable; without a limit all are |
| NoFlushLimiter.Counter.Update | core/commands/files.go:50-75 | an accepted call is a check step followed by an increment step of the transition system, whatever the other callers did in between; a refused one is a check that changes nothing, a flush a reset |
| StreamRegistry.RegisterKeeps | p2p/stream.go:75-87 | registering keeps counts and tags consistent exactly when the next id, a 64-bit number that wraps around, is not in use |
| StreamRegistry.RegisterCounts | p2p/stream.go:79-84 | registering over an id in use leaves one count too many for the peer that had it, and every other count as right or wrong as before |
| StreamRegistry.DeregisterKeeps | p2p/stream.go:90-106 | deregistering any id, used or not, leaves every count as right or wrong as before |
| StreamRegistry.CountsAndTags | p2p/stream.go:74-106 | in every interleaving, past any wrap-around: a peer's count is the number of its streams and of those overwritten, and it is tagged exactly while that is positive |
| StreamRegistry.NothingOverwritten | p2p/stream.go:82-84 | nothing is overwritten within the first 2^64 registrations |
| StreamRegistry.GoneForGood | p2p/stream.go:90-106 | in every run a stream keeps its peer, and once out of the registry never comes back |
| StreamRegistry.IdsAreNotReused | p2p/stream.go:82-84 | an id keeps its peer or is gone for good until 2^64 registrations after it was given |
| StreamRegistry.DeregisteredOnce | p2p/stream.go:108-120 | however often it is closed, and however ids wrap around, a stream leaves the registry at most once |
| StreamRegistry.NothingLeaks | p2p/stream.go:43-61 | once a copier of every stream has ended no stream is left, and a count or tag exactly for peers of which a stream was overwritten |
| StreamRegistry.LateCloseExample | p2p/stream.go:108-120 | a copier left over from a stream whose id came round again deregisters the new stream |
| StreamRegistry.StreamRegistry.Register | p2p/stream.go:75-87 | the whole new registry state, and the id given to the stream |
| StreamRegistry.StreamRegistry.Deregister | p2p/stream.go:90-106 | the whole new registry state; unknown ids change nothing |
| OnlyOne.StepKeepsInv | repo/onlyone.go:26-72 | opens, failed opens and closes of held handles keep counters, handles and the active table in step |
| OnlyOne.ClosesAtMultiples | repo/onlyone.go:59-72 | in every run, double closes and wrapped counters included, a close closes the repository and frees its key exactly when opens exceed closes by a multiple of 2^32 after it |
| OnlyOne.OneOpenRepoPerKey | repo/onlyone.go:26-72 | in every run without double closes the counter is the number of handles, one repository per key is open, and each is closed exactly once, with its last handle |
| OnlyOne.ExtraClose | repo/onlyone.go:63-71 | what a close too many does: it closes the repository under its holder exactly when one handle is held, wraps the 32-bit counter when none is, and else leaves it one short |
| OnlyOne.ExtraCloseExample | repo/onlyone.go:63-71 | two opens and a double close: the repository is closed under the other holder, and the next open of the key opens a second one |
| OnlyOne.CountsWhileTheyFit | repo/onlyone.go:46-46 | an open is counted exactly as long as the handles held fit 32 bits, else the counter is at zero |
| OnlyOne.OnlyOne.Open | repo/onlyone.go:26-48 | hands out the repository of the key, or a new one, or nothing when opening fails |
| OnlyOne.OnlyOne.Close | repo/onlyone.go:59-72 | gives back one handle; the last closes the repository and frees the key |
| ReqLog.SurvivorsAreTheKept | commands/reqlog.go:69-80 | an entry survives exactly if active or within the keep time of its end; compaction is a stable filter that keeps ids ascending and is idempotent |
| ReqLog.ClearedAreActive | commands/reqlog.go:51-59 | clearing drops no active entry and leaves only active ones when no end lies in the future |
| ReqLog.Compact | commands/reqlog.go:70-79 | the two-index loop leaves the filtered entries in front, in order |
| ReqLog.ReqLog.Cleanup | commands/reqlog.go:69-80 | the log becomes its survivors; ids stay unique and ascending |
| ReqLog.ReqLog.MaybeCleanup | commands/reqlog.go:61-67 | cleans up exactly when the length is a multiple of ten |
| ReqLog.AscendsIffOnce | commands/reqlog.go:41-47 | after an entry got the last id and was appended, the ids left ascend exactly unless the entry is left twice |
| ReqLog.ReqLog.AddEntry | commands/reqlog.go:37-48 | the entry gets the next id and is appended; an inactive one may trigger a cleanup; ids ascend again exactly when the entry was not logged before or is not logged any more |
| ReqLog.ReqLog.Finish | commands/reqlog.go:103-111 | the entry is finished now, in the log or not |
| ReqLog.ReqLog.ClearInactive | commands/reqlog.go:51-59 | the log becomes its survivors at keep time zero and the keep time is restored |
| ReqLog.ReqLog.Report | commands/reqlog.go:90-100 | copies of all entries in order, with unique ascending ids |
| Bootstrap.GroupingConserves | config/bootstrap_peers.go:22-32 | grouping a list by peer keeps each pair of peer and address as often as listed |
| Bootstrap.StringsConserve | config/bootstrap_peers.go:36-49 | so does writing grouped peers back |
| Bootstrap.StringsNames | config/bootstrap_peers.go:36-49 | and the entries written name exactly the grouped peers |
| Bootstrap.StringsRespell | config/bootstrap_peers.go:36-49 | and every entry written is in the spelling in which addresses are printed |
| Bootstrap.StringsGroupBack | config/bootstrap_peers.go:22-49 | grouping what was written gives the peers back, each with its addresses in order |
| Bootstrap.SplitAddrs | core/commands/bootstrap.go:363-374 | each address goes, as often as listed, to the removed side if asked for and to the kept side if not |
| Bootstrap.RemovePeer | core/commands/bootstrap.go:351-381 | what becomes of one peer, and when it vanishes |
| Bootstrap.RemovePeers | core/commands/bootstrap.go:351-382 | all listings of a pair go to one side, as asked; a peer vanishes exactly when listed bare and asked for with addresses |
| Bootstrap.Config.Add | core/commands/bootstrap.go:269-321 | new entries first, then old ones, each text once and none lost; refused as a whole exactly on an entry that is neither auto nor an address of a peer |
| Bootstrap.Config.Remove | core/commands/bootstrap.go:323-390 | every listing of a pair is afterwards either still there or returned, as asked, all spelled anew; a peer is in neither list exactly when it was listed bare and asked for with addresses; fails exactly on an entry that gives no peer, changing nothing, with the error for an automatic list exactly when there is one |
| Bootstrap.VanishingPeerExample | core/commands/bootstrap.go:363-381 | a peer listed bare and asked for under an address is in neither list afterwards |
| Bootstrap.SpelledTwiceExample | core/commands/bootstrap.go:292-315 | an address added under one spelling and listed under another is listed twice |

## Left out

- GcProtocol.PinnedBlocksSurvive: safety only; that a waiting thread eventually gets its lock is not modelled.
- GcProtocol.InvKept: the best-effort, direct and internal phases are one step that may mark anything, which covers them all.
- Collector.Collector.Run: after an error concurrent walkers may still visit nodes; since marking then fails, they are left out.
- RouterBuilder.Builder.Parse: building the HTTP client and the DHT is reduced to whether it succeeds; the panics on null parameters appear as errors.
- RouterConfig.SupportsHttpIsReachability: the recursion is a function of the nested calls allowed, since nothing in it bounds them.
- CatCommand.Cat: offsets and lengths are unbounded integers, so sums beyond 63 bits are not captured.
- ConfigScrub.MatchesGlobPrefix: texts are character sequences; invalid UTF-8 is not modelled.
- NotFoundErrors.RecognisedPrintsBack: texts are character sequences; invalid UTF-8 is not modelled.
- StreamRegistry.CountsAndTags: closing the endpoints of a stream is not modelled.
- ApiFile.SeekSucceedsIff: `Fails` on a closed stream stands for the crash on using a response that is not there.
- OnlyOne.OneOpenRepoPerKey: about runs without double closes that hold fewer than 2^32 handles of a repository at a time; `ClosesAtMultiples` covers all runs.
- Bootstrap.Config.Add: a failure to write the configuration file afterwards is not modelled.
- Bootstrap.Config.Remove: a failure to write the configuration file afterwards is not modelled.
- ReqLog.ReqLog.AddEntry: the command, options and arguments of an entry are not modelled.
- Pin listing, key handling, naming, MFS, the gateway, the daemon, FUSE and the HTTP client layers would add only plumbing or library calls.
- The web pages, the incentive layer and the machine-learning service have no specification to prove them against.
