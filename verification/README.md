# Verified models of the framework's hard cores

A Dafny 4.11 project that models the parts of the repository whose correctness is not visible in one
function, and proves what they are for. `dafny verify dfyconfig.toml` in this directory checks all of it.

## What is modelled

**The radix-tree router** (`echo/router.go`). `RouteTable.Search` is the reference reading of what is
registered: a byte-by-byte walk over the registered shapes, static before parameter before any; a
parameter that nothing follows takes the whole rest; an any shape ends the search even when it lacks the
method. A shape is a path with its parameter names cut out. `Router.DefaultRouter` is the mutable tree:
nodes with parent pointers, parallel label lists and cached flags, updated in place by `Add` and `Remove`.
The class keeps a ghost map of what is registered; `Add` and `Remove` change exactly one binding of it,
and `Route` answers as the reference search does over that map. The proof goes through snapshots of the
nodes (`RadixTree`, `RadixInsert`, `RadixRemove`) and through a machine for the goto loop (`RouteCursor`,
`RouteSearch`), whose every step is shown to agree with the reference search and to come closer to the
end. `RouteTheorems`, `RouteOrder` and `RouteReverse` hold what follows for the caller. `RoutePriority` and
`RouteAnswers` tell which registered route answers a request without the search: the first shape that fits
the path, static before parameter before any, among those that have something for its method.
`EchoRoutes.Echo` registers series of routes (`echo/echo.go`).

**Nested transactions** (`data/tx.go`). `Transactions.Meaning` says what a program of nested calls means by
the book; `Savepoints.Engine` carries it out on a savepoint stack, and ends with the same contents and
outcome, whatever rolled-back savepoints are left over. Which writes survive is told once more from the
trace of a run alone.

**The parallel downloader** (`assets/js/turbo_downloader.js`). A plan of pieces, and a state machine in
which the stretches of the workers between two awaits and the operations of the write queue come in any
order, with failures and retries. What comes out is the source; and in every order something can happen
until all workers have finished or thrown, which takes a bounded number of events (`DownloadProgress`).

**The Merkle tree of a folder** (`assets/js/reconcile_tree.js`). Sizes and hashes are defined from the set
of files; the builder, which works through a list and a map of directories, arrives at them.

**The in-memory broker and its event stream** (`realtime/broker.go`, `realtime/sse.go`). A state machine of
subscribe, unsubscribe, snapshot, single sends and receives in any order, with laws that tell from the events
alone who gets a message (`BrokerDelivery`), and a reader of the stream after section 9.2.6 of the HTML
standard.

**Two response writers** (`echo/middleware/compress.go`, `echo/response.go`). The gzip writer that decides
late, against a plain writer; the writer of HEAD requests, against the run of the same handler for GET.

**Keyset pagination** (`data/pagination.go`), **the rate limiter's store**
(`echo/middleware/rate_limiter.go`) and **the OpenAPI type walk** (`rapid/openapi.go`), of which
`SchemaWalk` says which types it has met at each field.

Objects that the source updates in place are classes here, and each method is tied to a function of the
state before it; the theorems are lemmas about these functions and about whole runs.

## Where the code does less than one may expect

Each of these is a lemma with the exact condition or with the input that shows it.

- A HEAD request gets the status of the GET request unless the handler flushes before it gives a status
  other than 200 (`HeadAgainstGet.SameStatus`, `HeadAgainstGet.EarlyFlushDiffers`).
- The downloader has 32 or 33 pieces only when the bytes left over after 32 blocks fit into one more block
  (`DownloadPlan.PieceCount`, `DownloadPlan.ManySmallPieces`).
- A handler that flushes and writes nothing gets a gzip stream that is never closed; in all other cases the
  client gets what was written (`GzipWriter.GzipResponseWriter.Finish`, `OpenStreams.UnclosedIsUnreadable`).
- A message with a carriage return does not survive the event stream (`EventStream.StreamRoundTrip`).
- A route that was registered without its leading slash is listed without it. `Remove` then drops the first
  listing instead, which can be that of another route, and panics when the list is empty, with the handler
  already gone (`Router.DefaultRouter.Remove`, `RouterState.RemovesOwnListing`). Three calls on a new router
  lead to the first, three more to the second (`RouterState.UnslashedRouteIsMislisted`).
- The rate limiter's forgetting shows exactly when a bucket is not full again by the expiry
  (`RateTheorems.ForgettingShowsUnlessFull`).
- An embedded struct is passed over when its type has been met before, which depends on the order of the
  fields: `struct { F I; I }` lacks what `struct { I; F I }` has (`SchemaWalk.EmbeddedIsFlattenedOnce`,
  `SchemaWalk.MetIsPassedOver`, `SchemaWalk.EmbeddedAfterFieldIsLost`). So a response type that embeds the
  request type of its route loses its properties (`SchemaWalk.ResponseLosesRequest`).
- A tag that has options and no name, like `,omitempty`, gives the property an empty name
  (`SchemaTheorems.TagNamesProperty`).
- The path that comes with a method-not-allowed answer depends on the order of registration, exactly when the
  paths that were registered last at the shape differ; nothing else does (`RouteOrder.OrderIsIrrelevant`,
  `RouteOrder.SameLastPathsSameAnswers`, `RouteOrder.OrderShowsInPath`).

## Model

| member | source | states |
|---|---|---|
| RoutePaths.NamesMatchShape | echo/router.go:545-605 | A path binds one parameter name for each mark of the shape under which it is stored |
| RoutePaths.ShapeAndNamesTellPath | echo/router.go:545-605 | The names put back into the shape give the path, up to an any mark |
| RoutePaths.NormalAddsSlash | echo/router.go:612-619 | A path that does not start with a slash gets one |
| RadixTree.Node.constructor | echo/router.go:759-797 | `newNode`: labels are those of the children, and the leaf and handler flags are exact |
| RadixTree.Node.ResetUpper | echo/router.go:693-707 | After a split the upper node keeps its place and the common prefix, holds nothing and has the lower node as its only child |
| RadixTree.Node.FindStaticChild | echo/router.go:844-851 | Finds the static child of a byte if and only if there is one |
| RadixTree.Node.FindChildWithLabel | echo/router.go:853-864 | The child towards a byte: static first, then parameter or any |
| RadixTree.Node.Absorb | echo/router.go:815-828 | A merged node takes over all that its child holds, under the joined prefix |
| RadixTree.PrefixIsAbove | echo/router.go:638-757 | In a well-formed tree a node that spells a prefix of another node's spelling lies above it, so that spellings identify nodes |
| RadixTree.EdgeOfStatic | echo/router.go:1000-1024 | Along the prefix of a static node nothing else branches off or ends, which lets the search compare whole prefixes |
| RadixTree.LeafIsEnd | echo/router.go:800-802 | The cached leaf flag says exactly that nothing registered goes on below the node |
| RadixInsert.BindAtNode | echo/router.go:747-753 | Setting a handler at an existing node changes one binding and keeps the tree well formed |
| RadixInsert.SplitNode | echo/router.go:659-707 | Splitting a node keeps the tree well formed, changes no binding and adds one place |
| RadixInsert.AddChildNode | echo/router.go:728-746 | Linking a new child keeps the tree well formed and adds its place, with its binding if it has one |
| RadixInsert.RoomAfterSplit | echo/router.go:706-721 | Only static pieces and static nodes reach the split, as the source's comments say |
| RadixInsert.RoomForRest | echo/router.go:724-745 | Where no child leads on, what remains of the path is one piece of the announced kind, and its place is free |
| RadixRemove.UnbindAtNode | echo/router.go:440 | Unsetting a handler changes one binding and keeps the tree well formed |
| RadixRemove.DetachLeaf | echo/router.go:459-475 | Cutting off a leaf that binds nothing keeps the tree well formed and every binding |
| RadixRemove.MergeNodes | echo/router.go:806-837 | Merging an unbound static node with its only child keeps the tree well formed and every binding |
| RadixRemove.GoesOnWay | echo/router.go:399-427 | The walk to a registered path without parameters stays on the way to it, though it never compares prefixes |
| RouteCursorProofs.StepOk | echo/router.go:996-1116 | Every step of the loop keeps the agreement with the reference search and makes progress |
| RouteCursorProofs.LeaveStaticOk | echo/router.go:974-986 | Leaving a static node restores the rest of the path and goes on with the alternatives at its parent |
| RouteCursorProofs.LeaveParamOk | echo/router.go:974-986 | Leaving a parameter node gives back the value it took, clears the slot and goes on at its parent |
| RouteCursorProofs.TakeParamOk | echo/router.go:1057-1077 | Entering a parameter node takes one segment, or everything at a leaf, as the reference search does |
| RouteCursorProofs.EndAtAnyOk | echo/router.go:1079-1116 | An any node ends the search with the reference outcome, with or without the method |
| RouteCursorProofs.SearchCanStep | echo/router.go:958-987 | No step indexes the path values out of range or gives back more than was read |
| RouteCursorProofs.NoNodeTwice | echo/router.go:996-1116 | The nodes that the steps of a search enter, children of every kind included, are all different |
| RouteSearch.Cursor.Run | echo/router.go:996-1116 | The loop ends with the reference outcome, and the nodes that it enters, in their order, are all different |
| RouteSearch.Cursor.Backtrack | echo/router.go:958-987 | Back to the parent, undoing search, position, counter and value |
| RouteTable.SearchKeeps | echo/router.go:996-1116 | A search below a place changes only the values of later marks and never the first best match |
| RouteTable.EdgeRun | echo/router.go:1026-1028 | Following the bytes of a prefix one by one is the same as taking it at once |
| RouteTable.SearchHitsBound | echo/router.go:1033-1048 | What is found is registered under the shape that was reached |
| RouteTheorems.SkeletonIrrelevant | echo/router.go:926-1182 | The answer depends on what is bound, not on empty places that a removal leaves in the tree |
| RouteTheorems.NotFoundIffNothingFits | echo/router.go:1118-1123 | The not-found answer is given exactly when no registered shape fits the path |
| RouteTheorems.MatchReadsPath | echo/router.go:1057-1098 | The values of a match, put back into its shape, give the path of the request |
| RouteTheorems.ExactRouteWins | echo/router.go:1050-1055 | A path without parameters that has a handler for the method is always reached |
| RoutePriority.FirstShapeAnswers | echo/router.go:996-1116 | A request is matched if and only if the first fitting shape at which a search can end has an answer, and then by that answer: own method, GET for HEAD, any method, not-found |
| RoutePriority.BestShapeIsKept | echo/router.go:1033-1048 | Without a match the best shape is the first fitting one with any handler |
| RouteAnswers.PlainPathIsServed | echo/router.go:264-305 | On a path without parameters the method's own route answers, GET for HEAD without one, and the route for any method only where neither is bound |
| RouteAnswers.FirstShapeDecides | echo/router.go:1125-1137 | Handler, route and path of a matched request, with the wrapped handler for HEAD |
| RouteAnswers.BestShapeDecides | echo/router.go:1118-1159 | The answer without a match: the not-found route of the best shape, or method-not-allowed, with a handler of its own for OPTIONS, or not-found |
| RouteAnswers.RegistrationTells | echo/router.go:513-537 | When a registration is refused, that this changes nothing, and what it returns otherwise |
| RouteAnswers.TwiceIsRefused | echo/router.go:531-537 | The same registration for a second time is refused unless it may overwrite |
| RouteAnswers.AddedIsServed | echo/router.go:513-610 | After a registration without parameters, requests for it get its handler, whatever else is registered |
| RouteAnswers.AddedServesHead | echo/router.go:538-541 | With the switch for HEAD they also do for HEAD, through the wrapped handler, unless HEAD has a route of its own |
| RouteOrder.AnyOrderBindsTheSame | echo/router.go:513-610 | Registrations with distinct shapes and methods bind the same in any order |
| RouteOrder.OrderIsIrrelevant | echo/router.go:513-757 | Handler, matched route and path values do not depend on the order of registration; the path does if and only if the answer is method-not-allowed and the last paths at the shape differ |
| RouteOrder.SameTableUnlessLastPathDiffers | echo/router.go:513-757 | Two orders lead to the same table if and only if the last path at each shape is the same |
| RouteOrder.SameLastPathsSameAnswers | echo/router.go:926-1182 | With the same last paths all answers to all requests are the same, their paths included |
| RouteOrder.OrderShowsInPath | echo/router.go:747-753 | GET `/:x` and POST `/:y`, asked for with PUT, give the path of whichever came last |
| RouteOrder.RoutersAgree | echo/router.go:513-610 | Of two series of the same routes with distinct shapes and methods, on new routers, none is refused and both bind the same |
| RouteOrder.OrderlyReturnInfos | echo/echo.go:593-613 | Such a series returns the infos of its routes, in their order |
| EchoRoutes.Echo.AddRoutes | echo/echo.go:593-613 | Routes registered one after the other: those that fail are skipped and reported, the others are bound in their order |
| EchoRoutes.Echo.Match | echo/echo.go:593-613 | One handler for several methods: the infos of all, or a panic with the errors of those that failed |
| RouteReverse.Reverse | echo/route.go:82-103 | The loop prints the path with its parameters replaced from left to right |
| RouteReverse.ReversedFillsShape | echo/route.go:82-103 | What is printed is the shape with the values in the place of its marks |
| RouteReverse.ReverseThenRoute | echo/route.go:82-103 | Routing the printed path selects the route and binds exactly the values if and only if no inner value has a slash and a trailing parameter's value is not empty |
| RouterState.OutcomeNodes | echo/router.go:1125-1168 | At the end the nodes at hand are bound, and their parameter counts are those of their shapes and fit the slots |
| RouterState.AddKeepsListed | echo/router.go:596-629 | The list of routes and the tree stay in step when a route is added |
| RouterState.RemoveKeepsListed | echo/router.go:442-449 | The list of routes and the tree stay in step when a listed route is removed |
| RouterState.RemovesOwnListing | echo/router.go:442-449 | A removal drops the route's own listing if and only if it was registered under its normalised path or happens to be first while that path is not listed, and only in the latter case another route's |
| RouterState.UnslashedRouteIsMislisted | echo/router.go:442-449 | Adding `/a` and `b` and removing `b` drops the listing of `/a`, which stays bound; doing it to `b` once more empties the list |
| RouterState.AnswerReadsBindings | echo/router.go:1118-1168 | The answer depends on what is bound alone, and is not-found exactly when nothing bound fits the path |
| Router.DefaultRouter.constructor | echo/router.go:127-155 | A new router has a blank tree and nothing registered |
| Router.DefaultRouter.SplitNode | echo/router.go:659-707 | The split, node by node, with all children adopted by the lower half |
| Router.DefaultRouter.Locate | echo/router.go:635-730 | The walk of an insertion ends where the path leaves a prefix, at a node without a child for the next byte, or at the node that it spells |
| Router.DefaultRouter.Insert | echo/router.go:631-757 | An insertion changes the binding of its path and method only, or none without a handler, and raises the highest parameter count |
| Router.DefaultRouter.InsertPath | echo/router.go:545-605 | All pieces of a path are inserted and its last one carries the handler |
| Router.DefaultRouter.StoreRouteInfo | echo/router.go:621-629 | Replaces the listing with the same method and path, or adds one |
| Router.DefaultRouter.Add | echo/router.go:513-610 | Fails for a missing handler or a duplicate, and otherwise lists the path as it was given and binds exactly the shape and method of the route |
| Router.DefaultRouter.FindRegistered | echo/router.go:397-432 | Finds the node of a registered path without parameters |
| Router.DefaultRouter.Prune | echo/router.go:451-483 | Leaves that bind nothing are cut off up the tree, and the node where this ends is compacted |
| Router.DefaultRouter.CompactNode | echo/router.go:806-837 | Compaction keeps the tree and its bindings |
| Router.DefaultRouter.Remove | echo/router.go:384-490 | Unbinds exactly the path and method and takes one listing off the list; fails without effect when there is no such route, and panics after unbinding when the list is empty |
| Router.DefaultRouter.Route | echo/router.go:926-1182 | The answer is that of the reference search over what is registered, not-found exactly when nothing fits, and no node is entered twice |
| Transactions.MeaningIsSurvivors | data/tx.go:43-96 | Exactly the writes survive all of whose enclosing levels succeed, in their order |
| Transactions.TopIsSurvivors | data/tx.go:76-96 | The same for the outermost level, which its commit closes |
| Transactions.TopTellsOutcome | data/tx.go:76-96 | The outermost call succeeds if and only if callback, begin and commit do; how a callback failed is passed on as it is |
| Savepoints.OwnSavepoint | data/tx.go:50-66 | Below whatever is left over a level finds its own savepoint, with the contents before it |
| Savepoints.Engine.RollbackTo | data/tx.go:113-124 | Back to the contents of the topmost savepoint of that number, which stays |
| Savepoints.Engine.Run | data/tx.go:50-74 | Running a callback gives the contents and the outcome of its meaning, and only adds savepoints on top |
| Savepoints.Engine.NestedTransaction | data/tx.go:50-74 | A nested call returns how the callback ended; if it fails or panics the contents before it are there, and else its surviving writes are added |
| Savepoints.Engine.WithTransaction | data/tx.go:76-96 | The outermost call commits the surviving writes and returns success, or leaves the database as it was and returns the callback's failure or an error |
| DownloadPlan.ComputeBlockSize | assets/js/turbo_downloader.js:18-25 | The block size is the 32nd part within the bounds |
| DownloadPlan.BlockSizeIsBounded | assets/js/turbo_downloader.js:18-25 | The block size lies within the bounds, and is the 32nd part where it is at neither |
| DownloadPlan.PreparePieces | assets/js/turbo_downloader.js:97-112 | The pieces in order, each with its bounds |
| DownloadPlan.PiecesPartition | assets/js/turbo_downloader.js:97-112 | The pieces follow on each other from the first byte to the last |
| DownloadPlan.PartitionCovers | assets/js/turbo_downloader.js:97-112 | Every byte lies in one piece only, and the lengths add up to the size |
| DownloadPlan.PieceCount | assets/js/turbo_downloader.js:18-25 | When there are 32 or 33 pieces |
| DownloadPlan.ManySmallPieces | assets/js/turbo_downloader.js:18-25 | 63 pieces for 63 bytes when the bounds allow blocks of one byte |
| DownloadSafety.StepKeeps | assets/js/turbo_downloader.js:154-234 | Every event keeps the claims, the queue and the kept bytes sound |
| DownloadSafety.WriteFollowsItsSeek | assets/js/turbo_downloader.js:86-95 | A write starts where its own piece starts, with that piece's bytes |
| DownloadSafety.DownloadIsComplete | assets/js/turbo_downloader.js:154-234 | When all workers have finished, every piece has been claimed once and the result is the source |
| DownloadSafety.StartedDownloadIsComplete | assets/js/turbo_downloader.js:97-234 | The same from the size of the file and the bounds on, for any number of workers |
| DownloadProgress.NeverStuck | assets/js/turbo_downloader.js:86-234 | In every reachable state in which a worker has neither finished nor thrown some event is possible |
| DownloadProgress.DownloadEnds | assets/js/turbo_downloader.js:154-234 | A run has a bounded number of events, chunks without bytes aside |
| DownloadProgress.CompletesUnlessDoomed | assets/js/turbo_downloader.js:154-234 | From a reachable state the download can still complete if and only if no worker has failed for the third time |
| DownloadProgress.DownloadCanComplete | assets/js/turbo_downloader.js:97-234 | For every file, bounds and number of workers there is a run that delivers the file |
| DownloadProgress.GivesUpAtThirdFailure | assets/js/turbo_downloader.js:167-220 | In every run a worker throws at the third failure with a piece, and goes on after two |
| Downloader.StartDownload | assets/js/turbo_downloader.js:97-152 | The pieces of the file are prepared and no more workers start than there are pieces |
| Downloader.Assemble | assets/js/turbo_downloader.js:197-203 | The chunks one after the other, in a buffer of the piece's length |
| Downloader.Download.NextPiece | assets/js/turbo_downloader.js:157-162 | A worker claims the next piece or ends |
| Downloader.Download.Catch | assets/js/turbo_downloader.js:213-220 | A failed attempt waits for the next one, or the third gives up |
| Downloader.Download.OnBodyEnd | assets/js/turbo_downloader.js:197-212 | A complete piece is kept in memory or joins the write queue |
| Downloader.Download.OnWrite | assets/js/turbo_downloader.js:87-94 | A settled write changes the file at its position and lets the next one begin |
| MerkleTheorems.SizeIsSum | assets/js/reconcile_tree.js:119-130 | Every folder's size is the sum of the sizes of the files in it |
| MerkleTheorems.EntryIsReadable | assets/js/reconcile_tree.js:122-125 | A text that starts with an entry tells name, kind, size and hash of the entry |
| MerkleTheorems.RootHashStandsForTree | assets/js/reconcile_tree.js:109-131 | Equal root hashes if and only if the same files, by path below the root and size |
| MerkleTheorems.TextsAsWritten | assets/js/reconcile_tree.js:119-130 | The text of an entry and that of a file's hash, in two examples |
| MerkleTheorems.LessIsLexicographic | assets/js/reconcile_tree.js:117-118 | Names are ordered by the first letter in which they differ, and a name before those that it starts |
| MerkleTheorems.FolderAsWritten | assets/js/reconcile_tree.js:119-130 | A folder of two files is hashed from their entries in the order of their names |
| MerkleBuilder.SortByName | assets/js/reconcile_tree.js:117-118 | The same children, in strict order of their names |
| MerkleBuilder.TreeReconciler.AddFile | assets/js/reconcile_tree.js:57-100 | The file hangs in its directory, and every directory leads to a file |
| MerkleBuilder.TreeReconciler.ComputeDirectoryHashes | assets/js/reconcile_tree.js:109-131 | All sizes and hashes that are set are those of the set of files |
| MerkleBuilder.BuildMerkleTree | assets/js/reconcile_tree.js:31-104 | Size and hash of the root depend on the set of files alone |
| MerkleBuilder.RootHashTellsLists | assets/js/reconcile_tree.js:31-104 | Two lists of files get the same root hash if and only if they are permutations of each other |
| BrokerSafety.StepKeeps | realtime/broker.go:36-109 | Every event keeps channels, publishes and topics sound |
| BrokerSafety.ChannelsAreSound | realtime/broker.go:36-109 | At most one copy of a message, of the channel's own topic, at most 64 waiting, no topic without subscribers |
| BrokerSafety.LostOnlyWhenFull | realtime/broker.go:97-106 | A finished publish has reached every channel of its snapshot once, or the buffer was full |
| BrokerSafety.NeverReordered | realtime/broker.go:72-109 | Publishes that do not overlap in time arrive in their order |
| BrokerDelivery.SubscribersAreTold | realtime/broker.go:36-67 | Who is subscribed follows from the subscriptions and unsubscriptions of the run |
| BrokerDelivery.SubscribersAreServed | realtime/broker.go:72-109 | Who is subscribed when a publish begins has the message once when it is over, or 64 messages were waiting at its turn |
| BrokerDelivery.OnlySubscribersAreServed | realtime/broker.go:72-109 | Nobody else gets it |
| Broker.MemoryBroker.Subscribe | realtime/broker.go:36-52 | A new channel under its topic, and none for the empty topic |
| Broker.MemoryBroker.Unsubscribe | realtime/broker.go:54-67 | The channel goes, and its topic with the last channel; a second call changes nothing |
| Broker.MemoryBroker.BeginPublish | realtime/broker.go:72-95 | Errors first, then the snapshot |
| Broker.MemoryBroker.SendNext | realtime/broker.go:97-106 | The message is buffered, or skipped when the buffer is full |
| EventStream.BuildFrame | realtime/sse.go:60-71 | The frame of a message, line by line |
| EventStream.Stream | realtime/sse.go:43-85 | What is written is the frames and heartbeats in their order |
| EventStream.StreamRoundTrip | realtime/sse.go:43-85 | A standard reader gets exactly the messages if and only if none holds a carriage return |
| EventStream.FramesAsWritten | realtime/sse.go:43-85 | The bytes of a heartbeat and of a message of two lines |
| GzipWriter.GzipResponseWriter.WriteHeader | echo/middleware/compress.go:147-154 | The status is held back |
| GzipWriter.GzipResponseWriter.Write | echo/middleware/compress.go:156-181 | All bytes are held in the buffer or have gone to the compressor, with the header out first |
| GzipWriter.GzipResponseWriter.Flush | echo/middleware/compress.go:183-199 | A flush enforces compression, and ends with a synchronisation of the compressor |
| GzipWriter.GzipResponseWriter.Finish | echo/middleware/compress.go:112-140 | The body, decoded as the header says, is all that was written, plain exactly below the minimum without a flush; after a flush without a write the stream stays open |
| GzipCalls.LatestStatusIsSent | echo/middleware/compress.go:147-181 | The latest status before compression begins, or at all, is the one that goes out |
| GzipCalls.StatusStays | echo/middleware/compress.go:156-199 | Once compression has begun no call changes the status |
| GzipCalls.NoStatusIsOk | echo/middleware/compress.go:112-140 | Without a status the answer is 200 |
| OpenStreams.UnclosedIsUnreadable | echo/middleware/compress.go:115-126 | There is a compressor whose open stream a client cannot read as the empty body |
| HeadAgainstGet.HeadSendsHeaderOnly | echo/response.go:185-279 | One header and no body, the size of the GET body, and its length where the status allows one |
| HeadAgainstGet.FirstCallDecides | echo/response.go:50-77 | The first header or body call decides the status of both answers |
| HeadAgainstGet.BodyIsWritten | echo/response.go:64-77 | The GET body is all that was written |
| HeadAgainstGet.HeadTellsSize | echo/response.go:228-264 | Where no length is set, HEAD tells the size of the GET body, except for 1xx, 204, 205 and 304 |
| HeadAgainstGet.HeadKeepsLength | echo/response.go:228-236 | A length that the handler sets is kept |
| HeadAgainstGet.HooksRun | echo/response.go:50-77 | The hooks before the header run once, and those after a write once for each write of GET and once for HEAD |
| HeadAgainstGet.SuggestedIsSent | echo/response.go:64-77 | A suggested status goes out with the first body call of GET |
| HeadAgainstGet.SameStatus | echo/response.go:50-77 | The status of the GET run if and only if no early flush has decided that one |
| HeadAgainstGet.EarlyFlushDiffers | echo/response.go:82-87 | A flush before a 404: 200 for GET, 404 for HEAD |
| HeadResponse.Response.Write | echo/response.go:64-77 | The first write commits the suggested status, and sizes and hooks are counted |
| HeadResponse.HeadResponseWriter.Write | echo/response.go:207-213 | The body is counted and not sent |
| HeadResponse.HeadResponseWriter.FinishHead | echo/response.go:228-256 | The length is set unless it is set already, transferred otherwise, or not allowed; then the header goes out once |
| Pagination.PaginateCursorSelect | data/pagination.go:75-161 | One page of the query with its cursor, probing for one row more |
| Pagination.PageIsExact | data/pagination.go:96-158 | A page has the wanted rows up to the limit that was asked for, or 20, in the order of the direction; more if and only if more are wanted; the cursor is the last key |
| Pagination.PagesRunOneWay | data/pagination.go:104-128 | All pages together run down from the cursor, or up from it for the previous direction |
| Pagination.PagesAreOrdered | data/pagination.go:75-161 | All pages together are in strict key order |
| Pagination.EveryLastingRowIsReturned | data/pagination.go:75-161 | A row that is there throughout is returned exactly once, whatever changes between the pages |
| Pagination.ReturnedRowsWereThere | data/pagination.go:115-130 | A returned row was there at the time of some page |
| Pagination.FixedTable | data/pagination.go:96-158 | On a fixed table the pages are all wanted rows in order, and as many as the limit that was asked for makes it take |
| Pagination.PageCountIsCeiling | data/pagination.go:134-158 | That number is the rows divided by the limit, rounded up, and one at least |
| RateTheorems.ForgettingDoesNotShow | echo/middleware/rate_limiter.go:269-285 | From the start the store that forgets decides like one that does not when a bucket is full again by the expiry |
| RateTheorems.ForgettingShows | echo/middleware/rate_limiter.go:310-317 | Otherwise there are requests to new stores on which they differ |
| RateTheorems.ForgettingShowsUnlessFull | echo/middleware/rate_limiter.go:269-317 | New stores decide alike on all requests if and only if rate times expiry is the burst at least |
| RateTheorems.PermitsAreBounded | echo/middleware/rate_limiter.go:269-285 | In any stretch of any run from the start a visitor gets at most burst plus rate times length permits |
| RateTheorems.SpacedVisitorsAreServed | echo/middleware/rate_limiter.go:269-285 | A visitor who comes no more often than the rate is always let through |
| RateTheorems.BurstIsLetThrough | echo/middleware/rate_limiter.go:269-285 | A new visitor is let through exactly burst times at one moment |
| RateLimiter.RateLimiterMemoryStore.Allow | echo/middleware/rate_limiter.go:269-285 | One decision: seen first, then forgetting, then the bucket |
| RateLimiter.RateLimiterMemoryStore.CleanupStaleVisitors | echo/middleware/rate_limiter.go:310-317 | Exactly the stale visitors go |
| SchemaTheorems.BuildIsClosed | rapid/openapi.go:250-414 | References lead to visited types, and every newly visited type gets its definition |
| SchemaTheorems.DocumentResolves | rapid/openapi.go:157-189 | Every reference in the document names one of its components |
| SchemaTheorems.BuildDescribes | rapid/openapi.go:250-414 | The schema of a type describes it: by name, by kind, as an array of what describes the element |
| SchemaTheorems.OperationsDescribe | rapid/openapi.go:140-189 | Each route has its operation: a body for POST, PUT and PATCH and a response, as far as registered, that describe their types |
| SchemaTheorems.TagNamesProperty | rapid/openapi.go:312-320 | A property is named by its tag up to the first comma, or like its field |
| SchemaTheorems.FieldsAreListed | rapid/openapi.go:312-384 | Every visible field is a property, and required if it says so |
| SchemaWalk.VisitsWhatIsReached | rapid/openapi.go:265-270 | The types visited from a type are those that a way through types not visited before leads to, and no others |
| SchemaWalk.EmbeddedIsFlattenedOnce | rapid/openapi.go:274-384 | The properties of a definition are the names of the visible fields and the properties of the embedded types that no earlier field has reached |
| SchemaWalk.OwnFieldBrings | rapid/openapi.go:308-320 | A field brings its property unless it is not exported or has the tag `-` |
| SchemaWalk.PropertyDescribesItsField | rapid/openapi.go:282-380 | A property describes the type of the last field that brings it, or is that of the embedded type |
| SchemaWalk.RequiredByFields | rapid/openapi.go:296-331 | What is required is what the visible fields and the embedded types require |
| SchemaWalk.MetIsPassedOver | rapid/openapi.go:282-305 | An embedded type that has been met before is treated as if its field were not there |
| SchemaWalk.EmbeddedAfterFieldIsLost | rapid/openapi.go:265-305 | A struct with a named field of a type before the embedded one lacks its properties |
| SchemaWalk.EmbeddedByWayOfAnother | rapid/openapi.go:282-305 | The properties of a type that is passed over may have come in through another embedded type |
| SchemaWalk.RouteEntersOnce | rapid/openapi.go:157-189 | In one route a type is entered once at most, and what has been met by then is determined |
| SchemaWalk.ComponentsAreEntered | rapid/openapi.go:157-189 | A component is in the document if and only if some route comes to a struct type of its name |
| SchemaWalk.LastRouteDefines | rapid/openapi.go:157-189 | The component is as the last such route defines it |
| SchemaWalk.ComponentsListFields | rapid/openapi.go:157-189 | It lists exactly what the fields of a struct type of its name bring, with the types met before it in that last route |
| SchemaWalk.ResponseLosesRequest | rapid/openapi.go:157-189 | A response type that embeds the request type lacks its properties, and has them in a route without that request |
| OpenApi.Generator.BuildSchemaFromType | rapid/openapi.go:250-414 | The recursion ends and builds the schema, the definitions and the record of visited types |
| OpenApi.BuildOpenAPI | rapid/openapi.go:90-189 | The operations and components of all routes, in which every reference resolves |

## Left out

- Router.DefaultRouter.Add: only paths without `\:` escapes, whose colons would be static bytes that look like marks.
- EchoRoutes.Echo.AddRoutes: the same paths only; the hook `OnAddRoute` and the size of the slices that contexts allocate are not modelled.
- EchoRoutes.Echo.Match: the same paths only.
- Router.DefaultRouter.Remove: only paths without parameters, built-in methods, and no not-found routes in the tree; the other removals are not modelled.
- Router bytes: each `char` stands for a byte; the fallback slice of length 0 for a context with too little capacity (echo/router.go:929) is excluded by the capacity that `Route` requires.
- Router.DefaultRouter.Route: the choice between the raw and the decoded path, the unescaping of values and the text of the Allow header are not modelled; the request context is the slice of path values and the result.
- The method table of a node is a map; a custom method is not told from a built-in one there.
- Middleware chains: a handler is known by its identity, with its middleware already around it.
- The bodies of `insert`, `Add`, `Remove` and the search loop are split into several methods each.
- Savepoint numbers do not wrap at 64 bits, and a rollback that the database refuses is not modelled.
- A callback that starts a second, independent transaction inside its own is not modelled.
- Downloader: abort and restart, progress, speed, the fallback to a native download and the choice of the file; a 206 response is exactly the requested range.
- Merkle tree: files lie under one root and no path is that of a file and of a folder; the fallback hash of 32 bits is not modelled, and the digest is taken to be free of collisions and of separators, as one that escapes letters is (`MerkleTheorems.EscapeIsHash`).
- Broker: rendering may fail but is not described; the Redis broker and the WebSocket handler are not part of this model.
- EventStream: the byte order mark, the fields `id` and `retry` and the headers of the response.
- GzipWriter: sniffing of the content type, the byte count that the crossing write returns; the compressor is any codec that decodes to what it was fed.
- HeadResponse: body writes are taken to be full, also for a status that allows no body.
- Pagination: keys are distinct integers that do not change, the column is mapped, the cursor codec round-trips, and the builder brings no order and no limit of its own.
- Rate limiter: tokens are real numbers; the headers with reserve and cancel are not modelled.
- OpenApi: the width of numbers, constraints on schemas, summaries, parameters and security; recursive types that are no structs.
- Offset pagination, configuration, logging, error mapping, binders, validators, migrations and file serving would only add easy members.
