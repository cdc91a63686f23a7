# Raw data lake: a verified model

The lake stores documents that collectors publish. Two writers fill it: `raw-writer` takes messages from a queue
and stores and announces each one in a small saga, `raw-writer-2` takes HTTP requests, spills large bodies to object
storage, stores a document and announces it. A router publishes each announcement again under a routing key. The
raw-data bridge reads: it serves a collection's documents in write order, or the newest document of every value of a
`meta` field, in pages a client walks by handing a token back, and it resolves URNs and spilled payloads.

The model follows that structure.

- `Bytes`, `Strings`, `Hex`, `Base64Url`, `Bson`, `Cursor`: byte strings, Go's string functions, the two layers of a
  continuation token (section 5 of RFC 4648 without padding, as section 3.2 allows, around a document of bsonspec.org
  version 1.1).
- `Values`, `Store`, `Lakes`: BSON values with MongoDB's sort order and its type-bracketed `$gt`, collections as finite
  sets of documents, and the server's scans and groupings with their order left open.
- `Sorting`, `Compaction`, `Names`, `Views`, `Paging`, `Rdt`: the bridge's queries, as methods proved against the two
  views they implement.
- `KeysetWalk`, `Walk`, `WalkGuarantees`, `Client`: whole walks, interleaved with any inserts and deletes.
- `Backfill`: what a late arrival does to the compacted view.
- `Addressing`, `Objects`, `Inlining`, `Responses`, `Server`, `HttpWalk`, `HttpClient`: URNs, object references, the
  parallel inlining of a page over every schedule of its goroutines, the endpoints, and clients whose requests are
  refused, fail and change their limit.
- `ReadBack`: what the writers store, read through the bridge's own methods.
- `Atomically`, `RawWriter`, `WriterProtocol`, `WriterGuarantees`: the saga, one message, and any number of concurrent
  messages with failing operations and crashes.
- `RawWriter2`, `Ingest`, `IngestProtocol`, `IngestGuarantees`: one request, and any number of concurrent requests and
  router deliveries, with failing operations and crashes.
- `IngestStorage`, `IngestExactness`, `Pigeonhole`: whether spilled bodies can be read back, and exactly when.
- `IngestWalk`: a compacted walk of a collection `raw-writer-2` is writing to.

`dafny verify dfyconfig.toml` checks everything.

## Results that do not hold as promised

- The bridge's README (`infrastructure/raw-data-bridge/README.md:99-101`) says every `meta` value is a string and that
  walking every page gives the whole current state. `raw-writer` stores arbitrary JSON, so a collection can hold values
  of several types, and `$gt` does not leave a type. `WalkGuarantees.PresentServedIff` says exactly which keys a walk
  serves while writers work, `WalkGuarantees.WholeViewIff` exactly when a walk of a quiet collection is whole,
  `WalkGuarantees.MixedTypesLoseAKey` exhibits a lost key, and `IngestWalk.IngestWalkIsTyped` proves that collections
  written by `raw-writer-2` alone are safe.
- `Atom.Run` compensates in ascending order. A failed run restores the world exactly when those rollbacks come to what
  descending ones would (`Atomically.RestoredIff`): with two completed actions, when their rollbacks commute where the run
  got to (`Atomically.TwoRollbacksRestoreIff`); with at most one, as in `raw-writer`, always
  (`Atomically.OneRollbackRestores`). `Atomically.DependentQuarksAreNotRestored` exhibits a run that is not restored.
- In `raw-writer` a ready message can be left without a document. No message dangles exactly when no message was both
  taken by the broker and rolled back, and documents and messages agree exactly when the messages inserted and not rolled
  back are the ones the broker took (`WriterGuarantees.Books`, for every schedule). A publish that reports failure after
  the broker took the message does it (`WriterGuarantees.DeliveredButReportedFailed`).
- A writer and the bridge mean the same collection exactly when the provider has no colon, and for `raw-writer-2` also no
  slash in its second segment (`Addressing.WriterAgreesIff`, `Addressing.Writer2AgreesIff`). The `db` field of
  `raw-writer-2`'s ready message carries the database prefix, the one of `raw-writer`'s does not
  (`Addressing.ReadyDbIsLogicalIff`).
- An object key carries provider, second and eight bytes of the body's hash. For a set of requests, every stored document
  is served with its body in every run exactly when no two of the requests that can be uploaded and stored agree in all
  three and differ in their bodies, and every body survives its own compression and reference
  (`IngestExactness.AlwaysServedIff`). Whatever the hash, some requests clash (`IngestExactness.SomeClash`).
- A limit is safe from refusal for every collection and cursor exactly when it is at most 32 (`HttpWalk.RefusalFreeIff`).

## Model

| member | source | states |
|---|---|---|
| `Strings.JoinSplit` | infrastructure/raw-writer/main.go:190-194 | joining the parts of a split with the same separator gives the text back |
| `Strings.SplitJoin` | infrastructure/raw-data-bridge/rdt/rdt.go:177-183 | splitting a join of separator-free parts gives the parts back, so split and join are inverse both ways |
| `Strings.SplitReplace` | docs/guidelines.md:54-56 | replacing the separator by one that does not occur yet moves every split to it |
| `Strings.SplitNStep` | infrastructure/raw-data-bridge/s3/s3.go:117 | a bounded split takes one part at each separator and leaves the last part's separators alone |
| `Hex.HexRoundTrip` | infrastructure/raw-data-bridge/rdt/rdt.go:552 | the hexadecimal form of an ObjectId parses back to it |
| `Hex.HexText` | infrastructure/raw-writer-2/mongo.go:82 | an id is printed as two lower-case digits a byte, the high one first |
| `Base64Url.RoundTrip` | infrastructure/raw-data-bridge/rdt/rdt.go:247-256 | decoding an encoded byte string gives it back, for every length modulo 3 |
| `Base64Url.PrefixIsPrefix` | infrastructure/raw-data-bridge/rdt/rdt.go:255-259 | a token cut short decodes, if at all, to a proper prefix of the bytes |
| `Base64Url.GroupIsBigEndian` | infrastructure/raw-data-bridge/rdt/rdt.go:252 | three bytes and their four digits are one number, the most significant part first |
| `Base64Url.DigitIsTabled` | infrastructure/raw-data-bridge/rdt/rdt.go:252 | the digits are upper case, lower case, numerals, a hyphen and an underscore, in this order |
| `Bson.DocumentRoundTrip` | infrastructure/raw-data-bridge/rdt/rdt.go:247-263 | parsing a printed document gives back its elements with their types |
| `Bson.LengthChecked` | infrastructure/raw-data-bridge/rdt/rdt.go:260-263 | a document whose declared length was right is refused at every shorter length |
| `Cursor.RoundTrip` | infrastructure/raw-data-bridge/rdt/rdt.go:242-268 | a token decodes to the same field and typed value under its own field and is refused under every other |
| `Cursor.NeverEmpty` | infrastructure/raw-data-bridge/rdt/rdt.go:247-253 | no token is empty, even for an empty key value, so a continuation never looks like the end |
| `Cursor.Injective` | infrastructure/raw-data-bridge/rdt/rdt.go:247-268 | two cursors share a token only when they are equal |
| `Cursor.TruncatedIsRefused` | infrastructure/raw-data-bridge/rdt/rdt.go:255-268 | a token cut short anywhere is refused |
| `Cursor.WireFormat` | infrastructure/raw-data-bridge/rdt/rdt.go:242-253 | what a token holds byte by byte: length, a string element named f, an element named v of the value's own type, a closing zero |
| `Names.DocumentsFieldIsReserved` | infrastructure/raw-data-bridge/rdt/rdt.go:41-56 | no valid field name equals the field tag of a documents cursor |
| `Names.DatabaseNameIsDotlessCollectionName` | infrastructure/raw-data-bridge/rdt/rdt.go:62-82 | a database name is valid exactly when it is a valid collection name without a dot |
| `Names.CollectionNameIff` | infrastructure/raw-data-bridge/rdt/rdt.go:62-72 | a collection name is valid exactly when it has at most 128 letters, digits, underscores, hyphens and dots, no empty segment, and no segment that begins with a hyphen |
| `Names.PlainNameIff` | infrastructure/raw-data-bridge/rdt/rdt.go:80-96 | database and field names are those without a dot |
| `Values.BeforeTotal` | infrastructure/raw-data-bridge/rdt/rdt.go:355-369 | the order values are sorted by is total across types |
| `Values.BeforeIs` | infrastructure/raw-data-bridge/rdt/rdt.go:355-369 | nulls come before strings, those before ObjectIds, those before booleans, strings and ObjectIds in byte order |
| `Bytes.LessIff` | infrastructure/raw-data-bridge/rdt/rdt.go:355-369 | the byte order is lexicographic, a prefix before what it begins |
| `Store.ApplyEffect` | infrastructure/raw-writer/main.go:219-250 | a delete frees its id, an insert takes it unless it was taken, and no write touches a document of another id |
| `Store.ApplyAllConcat` | infrastructure/raw-writer/main.go:219-250 | writes made in two batches have the effect of the one after the other |
| `Lakes.Lake.Perform` | infrastructure/raw-writer/main.go:219-250 | a write changes its own collection as the specification says, creates it on a first insert, and leaves every other one alone |
| `Lakes.Lake.PerformAll` | infrastructure/raw-writer/main.go:219-250 | a sequence of writes has the effect of applying them one after the other, on its own collection and no other |
| `Lakes.Scan` | infrastructure/raw-data-bridge/rdt/rdt.go:377-379 | a scan lists a collection once each, in an order of the server's choosing |
| `Lakes.GroupRows` | infrastructure/raw-data-bridge/rdt/rdt.go:366-369 | grouping gives one group per key with the first row of that key, groups in any order |
| `Compaction.PipelineRefinesView` | infrastructure/raw-data-bridge/rdt/rdt.go:336-375 | match, three-key sort, group with first, re-sort and replace give the newest document of each key beyond the cursor in ascending key order, whatever order the groups come in |
| `Compaction.ViewUnique` | infrastructure/raw-data-bridge/rdt/rdt.go:321-325 | a collection, field and cursor have only one such view |
| `Compaction.CurrentExists` | infrastructure/raw-data-bridge/rdt/rdt.go:313-325 | every key in use has a current document |
| `Compaction.CurrentUnique` | infrastructure/raw-data-bridge/rdt/rdt.go:313-325 | and only one |
| `Compaction.CurrentIff` | infrastructure/raw-data-bridge/rdt/rdt.go:355-361 | a document is current exactly when no other of its key has a later event time, or the same and a greater id |
| `Compaction.CursorPushdown` | infrastructure/raw-data-bridge/rdt/rdt.go:336-350 | filtering by the cursor before grouping equals filtering the grouped result |
| `Views.FoundIsLog` | infrastructure/raw-data-bridge/rdt/rdt.go:438-458 | the find query gives the documents beyond the cursor, ids strictly descending |
| `Views.RowsAfter` | infrastructure/raw-data-bridge/rdt/rdt.go:336-350 | reading on from a row gives the later rows of that row's type, and no other |
| `Views.RowsAre` | infrastructure/raw-data-bridge/rdt/rdt.go:336-375 | a documents query reads what has an id below the cursor's, the greatest first; a compacted query the current documents with a key above the cursor's, the least first |
| `Views.TokenSeparation` | infrastructure/raw-data-bridge/rdt/rdt.go:255-268 | a row's token is never empty, names the row's position under its own ordering and is refused by every other ordering, documents and compacted alike |
| `Views.TokenAcceptedIff` | infrastructure/raw-data-bridge/rdt/rdt.go:438-449 | a token is accepted exactly under its own field, and by the documents view only when it holds an ObjectId |
| `Paging.Drain` | infrastructure/raw-data-bridge/rdt/rdt.go:517-545 | the read is the longest prefix within the byte budget, at least one row, and reports whether rows were left |
| `Paging.Finish` | infrastructure/raw-data-bridge/rdt/rdt.go:221-235 | trims to the limit and asks for the last row's token exactly when the read was cut or over-read |
| `Paging.OverReadExact` | infrastructure/raw-data-bridge/rdt/rdt.go:371-375 | over-reading one row, draining and trimming gives the longest prefix within both limit and budget, and a continuation is due exactly when rows remain |
| `Paging.PageLenIs` | infrastructure/raw-data-bridge/rdt/rdt.go:517-545 | a page has at most limit rows, at least one if there are any, and at most budget bytes if it has two; one more row would break the limit or the budget |
| `Paging.TotalSizeAdds` | infrastructure/raw-data-bridge/rdt/rdt.go:526-528 | the size of rows is the sum of theirs |
| `Paging.CutPage` | infrastructure/raw-data-bridge/rdt/rdt.go:383-407 | drain and finish together cut that page and give the last row's token exactly when rows remain |
| `Paging.PagesConcat` | infrastructure/raw-data-bridge/rdt/rdt.go:323-325 | the pages of unchanging rows, under limits that may change from page to page, concatenate to the rows once the last is reached |
| `Paging.PagesAtMostRows` | infrastructure/raw-data-bridge/rdt/rdt.go:518-526 | a walk takes at most a page a row, and as many requests as rows reach the end |
| `Paging.FullPagesBound` | infrastructure/raw-data-bridge/rdt/rdt.go:221-235 | a walk has one last page, its full pages hold at least the least limit each, and the rest are short |
| `Paging.ShortPagesBound` | infrastructure/raw-data-bridge/rdt/rdt.go:517-545 | a short page and the one after it exceed the budget together, so short pages are bounded by twice the bytes |
| `Paging.WalkBound` | infrastructure/raw-data-bridge/rdt/rdt.go:517-545 | N rows of T bytes, with every limit at least L, take at most 1 + N/L + 2T/B pages |
| `Rdt.PageExact` | infrastructure/raw-data-bridge/rdt/rdt.go:221-235 | a page is the longest prefix that fits, its token is empty exactly when nothing remains, and the token is accepted as the position of the page's last row |
| `Rdt.Bridge.Aggregate` | infrastructure/raw-data-bridge/rdt/rdt.go:352-379 | the pipeline, run over any scan and any grouping, gives the first rows of the compacted view |
| `Rdt.Bridge.Find` | infrastructure/raw-data-bridge/rdt/rdt.go:455-458 | the find gives the first rows of the documents view |
| `Rdt.Bridge.GetCompacted` | infrastructure/raw-data-bridge/rdt/rdt.go:326-408 | answers, from the prefixed database, with the page of the compacted view beyond the token, or with bad identifier, bad cursor or collection not found, each exactly in its case |
| `Rdt.Bridge.GetDocuments` | infrastructure/raw-data-bridge/rdt/rdt.go:430-481 | the same for the documents view |
| `Rdt.Bridge.GetDocument` | infrastructure/raw-data-bridge/rdt/rdt.go:547-582 | answers with the one document a URN addresses under the bridge's prefix, not found, or bad URN |
| `Rdt.ListedIsAddressable` | infrastructure/raw-data-bridge/rdt/rdt.go:137-143 | a document a caller has listed can be addressed by the URN of its database, collection and id, and only it is found there |
| `ReadBack.ByUrn` | infrastructure/raw-data-bridge/rdt/rdt.go:103-117 | a document where raw-writer-2 puts it, under the prefix it shares with the bridge, is what the bridge gives for its published URN |
| `ReadBack.ByWriterUrn` | infrastructure/raw-writer/main.go:236 | so is a document where raw-writer puts it |
| `ReadBack.ByName` | infrastructure/raw-data-bridge/rdt/rdt.go:103-117 | either view, asked for by logical names, is read from where raw-writer-2 puts that provider's documents |
| `ReadBack.ServeRouted` | infrastructure/raw-data-bridge/server.go:312-354 | the endpoint, given a routed message's URN at any later time, replies with its request's document, carrying that request's body, media type, timestamp and headers |
| `ReadBack.ServeReady` | infrastructure/raw-data-bridge/rdt/rdt.go:547-582 | the bridge gives, for a ready message of raw-writer, the document stored for it |
| `KeysetWalk.ServedAscending` | infrastructure/raw-data-bridge/rdt/rdt.go:321-325 | whatever changes between pages, keys are served in strictly ascending order |
| `KeysetWalk.PresentIsServed` | infrastructure/raw-data-bridge/rdt/rdt.go:321-325 | a walk that ends has served every key present at each of its pages |
| `Walk.RunIsGoodWalk` | infrastructure/raw-data-bridge/rdt/rdt.go:326-408 | the bridge's pages, interleaved with any writes and each asked for with a limit of its own, form such a walk over the positions of the type the first page ends in |
| `Walk.LaterRowsHaveType` | infrastructure/raw-data-bridge/rdt/rdt.go:342-346 | after its first page a walk serves positions of that type only |
| `WalkGuarantees.ServedInOrder` | infrastructure/raw-data-bridge/rdt/rdt.go:321-325 | no position is served twice: rows come in the view's strict order across the whole walk, under any inserts and deletes |
| `WalkGuarantees.WalkOrderIs` | infrastructure/raw-data-bridge/rdt/rdt.go:321-325 | ids strictly descend over a documents walk, and string keys strictly ascend over a compacted one, byte by byte |
| `WalkGuarantees.PresentServedIff` | infrastructure/raw-data-bridge/rdt/rdt.go:342-346 | under any inserts and deletes, a key present throughout a completed walk is served by exactly one row if the first page has it or ends in its type, and not at all otherwise |
| `WalkGuarantees.PresentThroughoutServedOnce` | infrastructure/raw-data-bridge/server.go:183-191 | so a key present throughout is served by exactly one row when the keys have one type as the walk begins |
| `WalkGuarantees.ServedIsNewest` | infrastructure/raw-data-bridge/rdt/rdt.go:313-319 | a served document is its key's newest at the moment of its page |
| `WalkGuarantees.ServedIsNotOlder` | infrastructure/raw-data-bridge/server.go:183-191 | with inserts only, it is at least as new as anything its key had at the start |
| `WalkGuarantees.UndisturbedPages` | infrastructure/raw-data-bridge/rdt/rdt.go:323-325 | when no write touches the rows still to come, the visits are the pages of the rows at the start under the limits asked for, and the walk ends exactly when they reach the last row |
| `WalkGuarantees.QuietWalkIsTheView` | infrastructure/raw-data-bridge/server.go:189-191 | once writes have stopped, a completed walk is exactly the current view, whatever its limits; with every limit at least L it takes at most 1 + N/L + 2T/B pages, and completes when it may read more |
| `WalkGuarantees.LogServesPresentOnce` | infrastructure/raw-data-bridge/rdt/rdt.go:438-480 | under any inserts and deletes, a document present throughout is returned exactly once |
| `WalkGuarantees.LogWalkIsSnapshot` | infrastructure/raw-data-bridge/rdt/rdt.go:438-480 | with inserts above every existing id, the walk returns exactly the documents of its first page's moment and ends within one page per document |
| `WalkGuarantees.MixedTypesWalk` | infrastructure/raw-data-bridge/rdt/rdt.go:342-346 | with key values of several types, a completed walk of an unchanging collection returns the first page and the later rows of that page's last type |
| `WalkGuarantees.WholeViewIff` | infrastructure/raw-data-bridge/rdt/rdt.go:342-346 | so it is the whole view exactly when every row after the first page has the type of that page's last row |
| `WalkGuarantees.MixedTypesLoseAKey` | infrastructure/raw-data-bridge/README.md:99-113 | a string key and a boolean key read one row a page: the walk ends without the boolean's document |
| `Client.Request` | infrastructure/raw-data-bridge/server.go:162-212 | a request to either endpoint is answered from its own ordering |
| `Client.IssuedTokenIsAnswered` | infrastructure/raw-data-bridge/rdt/rdt.go:338-350 | a token the bridge issued is never refused and is answered with the page beyond its row |
| `Client.ReadNext` | infrastructure/raw-data-bridge/server.go:162-212 | one request of a walk carries the next slice and a token for its last row when more remains |
| `Client.WalkPages` | infrastructure/raw-data-bridge/server.go:183-191 | a client that hands every token back, with any limit each time, reads the pages of the walk, whatever is written in between, and fails only for an absent collection |
| `Backfill.ArrivalEffect` | infrastructure/raw-data-bridge/rdt/rdt.go:355-361 | an older arrival changes no current document, a newer one only its own key's |
| `Backfill.IncrementalAgreesWithBatch` | infrastructure/raw-data-bridge/rdt/rdt.go:355-370 | keeping the newest of whatever arrives, in any order, ends with the batch view |
| `Backfill.ArrivalOrderIsIrrelevant` | infrastructure/raw-data-bridge/rdt/rdt.go:355-370 | two arrival orders of the same documents give the same table |
| `Addressing.RawUrnResolves` | infrastructure/raw-data-bridge/rdt/rdt.go:177-183 | what database, collection, id and routing key a published URN leads to |
| `Addressing.RawUrnReads` | docs/guidelines.md:47-68 | a published URN reads urn:raw: and the provider's tokens and the id between colons |
| `Addressing.WriterTargetIs` | infrastructure/raw-writer/main.go:189-195 | the first token is the database, the others joined with dots the collection, and fewer than two tokens are refused |
| `Addressing.Writer2TargetIs` | infrastructure/raw-writer-2/mongo.go:20-27 | the prefix and the first segment are the database, the rest the collection, and an empty one is refused |
| `Addressing.WriterAgreesIff` | infrastructure/raw-writer/main.go:189-195 | raw-writer and the bridge mean the same document exactly when the provider has no colon |
| `Addressing.Writer2AgreesIff` | infrastructure/raw-writer-2/mongo.go:20-27 | raw-writer-2 and the bridge do exactly when it also has no slash in its second segment |
| `Addressing.RoutingKeyAgreesIff` | infrastructure/router/main.go:72-85 | the routing key is database, dot, collection, and splits back at its first dot exactly when the database has none |
| `Addressing.ReadyDbIsLogicalIff` | infrastructure/raw-writer-2/mq.go:31-36 | the ready message's `db` is the logical name exactly when there is no prefix |
| `Objects.S3UrnParsesIff` | infrastructure/raw-data-bridge/s3/s3.go:113-122 | a reference is given a retriever, and parses back to bucket and key exactly when the bucket is not empty and has no colon, whatever colons the key has |
| `Objects.ParsesOnlyBuilt` | infrastructure/raw-data-bridge/s3/s3.go:113-122 | and nothing else parses |
| `Objects.HasRetrieverIff` | infrastructure/raw-data-bridge/retriever.go:35-44 | a reference has a retriever exactly when it reads urn:s3, alone or before a colon |
| `Objects.Retrieve` | infrastructure/raw-data-bridge/s3/s3.go:60-111 | the retry loop comes to what its attempts come to, tried in turn |
| `Objects.RetrievedIff` | infrastructure/raw-data-bridge/s3/s3.go:60-111 | it returns a payload exactly when that is the first one readable and no wait before it was cancelled, reports the context exactly when a wait is cancelled first, and is unavailable exactly when every attempt is made in vain |
| `Inlining.InlinedIs` | infrastructure/raw-data-bridge/server.go:122-152 | a document is served exactly when it has no reference or one that reads urn:s3 and is fetched; binary becomes bytes, a reference's payload text or bytes by media type, and nothing else changes |
| `Inlining.RetrievedIsHeld` | infrastructure/raw-data-bridge/s3/s3.go:60-111 | what is retrieved is what the bucket holds under the reference, and is retrieved as soon as one attempt reads it in time |
| `Atomically.Atom.Run` | infrastructure/raw-writer/atomically.go:38-52 | one intermediate per completed action, and on a failure each completed action rolled back once, with its own result, in ascending order |
| `Atomically.Atom.RollBack` | infrastructure/raw-writer/atomically.go:43-47 | the rollback loop calls exactly the rollbacks of the completed actions |
| `Atomically.FailedRunRestores` | infrastructure/raw-writer/atomically.go:38-52 | when each rollback undoes its action independently of the later ones, a failed run leaves the world as before, for any number of quarks |
| `Atomically.BackwardsRestores` | infrastructure/raw-writer/atomically.go:43-47 | descending order would restore without independence |
| `Atomically.RestoredIff` | infrastructure/raw-writer/atomically.go:38-52 | a failed run of reversible quarks restores the world exactly when the ascending rollbacks come to what the descending ones would |
| `Atomically.TwoRollbacksRestoreIff` | infrastructure/raw-writer/atomically.go:43-47 | with two completed actions, exactly when their rollbacks commute on the state and results reached |
| `Atomically.OneRollbackRestores` | infrastructure/raw-writer/atomically.go:43-47 | with at most one completed action a failed run always restores |
| `Atomically.DependentQuarksAreNotRestored` | infrastructure/raw-writer/atomically.go:43-47 | two overwrites and a failure end with the first one's value |
| `RawWriter.QuarksAreCompensable` | infrastructure/raw-writer/main.go:127-154 | the insert and publish quarks meet the condition of a restoring saga |
| `RawWriter.HandleMqMsg` | infrastructure/raw-writer/main.go:93-160 | success adds exactly one document and one message whose id, URN and routing key are that document's, a failure adds nothing unless the delete failed too, and success happens exactly when the message is valid and nothing failed |
| `RawWriter.StoredIsBody` | infrastructure/raw-writer/main.go:104-124 | the stored document is the body under the id it was given, dated with the timestamp it carries, in the collection its provider names |
| `RawWriter.MessageLeadsToDocument` | infrastructure/raw-writer/main.go:137-152 | a message's URN leads the bridge to the message's own collection and id |
| `WriterProtocol.NextAccounted` | infrastructure/raw-writer/main.go:68-160 | every step of any goroutine keeps documents and ready messages accounted for by their tasks |
| `WriterProtocol.RunAccounted` | infrastructure/raw-writer/main.go:68-160 | so does every schedule, where an insert or a publish may fail, fail after taking effect, or be cut off by a crash |
| `WriterProtocol.OneMessage` | infrastructure/raw-writer/main.go:68-160 | a message whose handler is not interrupted takes one run of the protocol's steps: the saga leaves the world those steps leave, and acks exactly when it succeeds |
| `WriterProtocol.HandleMq` | infrastructure/raw-writer/main.go:68-91 | the goroutine of one message, through the saga's loop, is that run |
| `WriterGuarantees.Books` | infrastructure/raw-writer/main.go:126-154 | for every schedule, no ready message dangles exactly when no message had both a publish the broker took and a rollback that deleted, and stored and announced ids agree exactly when the messages inserted and not rolled back are those the broker took |
| `WriterGuarantees.LeftBehind` | infrastructure/raw-writer/main.go:126-154 | any one message leaves a document exactly when its insert took effect and no rollback deleted it, and a ready message exactly when the broker took it |
| `WriterGuarantees.AckedHasBoth` | infrastructure/raw-writer/main.go:68-91 | whatever fails or crashes, an acked message has its document and its ready message |
| `WriterGuarantees.ReadyLeadsToDocument` | infrastructure/raw-writer/main.go:137-152 | in every reachable state, the URN of a ready message whose provider has no colon leads to the message's own collection and id, and its routing key is database, dot, collection |
| `WriterGuarantees.SettledStays` | infrastructure/raw-writer/main.go:68-91 | acked, nacked and crashed are final, so no message is both acked and nacked, and published messages stay |
| `WriterGuarantees.NeverStuck` | infrastructure/raw-writer/main.go:68-91 | an unsettled message can always go on, whatever its operations answer, and has finitely many steps left |
| `WriterGuarantees.NoReadyMessageDangles` | infrastructure/raw-writer/main.go:126-159 | if a publish that reports failure published nothing, every ready message names a stored document in every reachable state, with crashes and every other failure allowed |
| `WriterGuarantees.NackedLeavesNothing` | infrastructure/raw-writer/main.go:68-91 | if operations that report failure did nothing and deletes succeed, a nacked message has left neither document nor message, wherever the process crashes |
| `WriterGuarantees.Conservation` | infrastructure/raw-writer/main.go:68-91 | then, once every message is acked or nacked, acked messages, ready messages and surviving documents are equally many and the same ids |
| `WriterGuarantees.AnnouncedIsNeverRolledBack` | infrastructure/raw-writer/atomically.go:38-52 | a document named by a ready message is there in every later state, if a publish that reports failure published nothing |
| `WriterGuarantees.DeliveredButReportedFailed` | infrastructure/raw-writer/main.go:138-154 | a publish that reports failure after delivery leaves a message naming nothing |
| `RawWriter2.SuffixTellsCompression` | infrastructure/raw-writer-2/handler.go:147-168 | an object key ends in `.zst` exactly when its object is compressed |
| `RawWriter2.KeyInjective` | infrastructure/raw-writer-2/handler.go:159-168 | requests share a key only with the same provider, second, truncated hash and compression |
| `RawWriter2.UploadHolds` | infrastructure/raw-writer-2/handler.go:145-170 | an upload leaves an object that the bridge unpacks to the body, if the body survives its own compression |
| `RawWriter2.SameTextTypes` | infrastructure/raw-data-bridge/server.go:49-64 | the two copies of the text test agree on every media type: text/ and five more |
| `RawWriter2.SpilledObjectIs` | infrastructure/raw-writer-2/handler.go:146-168 | an uploaded object is the body, compressed exactly when it is text and compression did not fail, under a key with the provider's path that says which |
| `RawWriter2.ReferenceIsServed` | infrastructure/raw-data-bridge/server.go:130-151 | a document with a reference is served with what its object unpacks to, changed in nothing else |
| `RawWriter2.SpillTransparency` | infrastructure/raw-writer-2/mongo.go:35-58 | the payload served is the one received, inline or spilled, compressed or not |
| `IngestProtocol.NextSound` | infrastructure/raw-writer-2/handler.go:113-223 | every step of any request or of the router keeps documents and messages accounted for by their requests |
| `IngestProtocol.NothingIsUndone` | infrastructure/raw-writer-2/handler.go:145-222 | nothing uploaded, stored, announced or routed ever goes away, as there is no rollback |
| `IngestProtocol.RunSound` | infrastructure/raw-writer-2/handler.go:113-223 | every schedule keeps them so, with failures and crashes between any two steps and whatever the bodies |
| `Ingest.SpillBody` | infrastructure/raw-writer-2/handler.go:145-181 | a body of threshold size or more is uploaded under its key, compressed if it is text, and referenced; a smaller one is left inline; no other object changes |
| `Ingest.HandleIngest` | infrastructure/raw-writer-2/handler.go:113-223 | the handler run without interruption is one run of the protocol's steps, and answers 200 exactly when every step succeeds, 400 exactly when metadata is missing |
| `Ingest.OneRequest` | infrastructure/raw-writer-2/handler.go:145-222 | what exactly such a run leaves behind when the body cannot be read, the upload, the insert or the publish fails, or nothing does |
| `Ingest.StatusIs` | infrastructure/raw-writer-2/handler.go:119-222 | 400 exactly when a path segment or the User-Agent is missing, 200 exactly when in addition the body is read, uploaded if it has to be, inserted and announced |
| `Ingest.OneRequestStores` | infrastructure/raw-writer-2/mongo.go:35-83 | a request that ends with a 200 has inserted one document, with its own timestamp, media type and headers, into the collection its path names and no other, and published one message about it |
| `IngestStorage.StoredAsSent` | infrastructure/raw-writer-2/mongo.go:63-83 | in every reachable state each stored document lies in its request's collection and carries a reference exactly when the body was too large |
| `IngestStorage.StoredSaysWhatWasSent` | infrastructure/raw-writer-2/mongo.go:35-58 | in every reachable state a stored document's event time, media type and metadata are its request's own, and it lies where the request's path says |
| `IngestStorage.CompactedServesLatestRequest` | infrastructure/raw-data-bridge/rdt/rdt.go:355-361 | of the documents stored for one header value, the compacted view has the one whose request has the latest timestamp, and of several the greatest id |
| `IngestStorage.RunHeld` | infrastructure/raw-writer-2/handler.go:145-176 | when bodies are readable and do not clash, every uploaded object behind a document keeps unpacking to its body |
| `IngestStorage.SpilledServedIff` | infrastructure/raw-data-bridge/server.go:130-151 | a spilled document is served with its body exactly when the bucket can be named in a URN and the object holds the body |
| `IngestStorage.StoredIsServed` | infrastructure/raw-writer-2/handler.go:145-222 | no dangling reference: then every reference names an object holding its document's body, and the bridge serves every document with its body |
| `IngestExactness.AlwaysServedIff` | infrastructure/raw-writer-2/handler.go:159-176 | for any set of requests, every stored document is served with its body in every run exactly when every body that can be stored is readable and no two that can be uploaded and stored collide |
| `IngestExactness.ClashIsNotServed` | infrastructure/raw-writer-2/handler.go:159-176 | two clashing requests, of whatever media types, have a run that stores a document it does not serve with its body |
| `IngestExactness.SomeClash` | infrastructure/raw-writer-2/handler.go:159-168 | under every configuration and every hash, some two requests clash |
| `IngestExactness.NotEverythingIsServed` | infrastructure/raw-writer-2/handler.go:159-176 | so under no configuration are all requests safe |
| `IngestGuarantees.NoMessageDangles` | infrastructure/raw-writer-2/mq.go:22-42 | whatever fails, crashes or collides, every ready or routed message names a stored document, then and later, and is routed under its URN's key |
| `IngestGuarantees.RepliesAreHonest` | infrastructure/raw-writer-2/handler.go:113-223 | whatever fails, crashes or collides, a 200 means stored and announced; a 400 means exactly missing metadata, with nothing stored; the rest is 500 |
| `IngestGuarantees.OkMeansServed` | infrastructure/raw-writer-2/handler.go:113-223 | and when bodies are readable and do not clash, a 200 means the bridge serves the body, then and later |
| `IngestGuarantees.LeadsToDocument` | infrastructure/router/main.go:87-107 | whatever fails, crashes or collides, a routed message's URN leads the bridge, at any later time, to the one document of its request, and the routing key spells its collection |
| `IngestGuarantees.EndToEnd` | infrastructure/router/main.go:87-107 | and when bodies are readable and do not clash, the bridge serves that document with the request's body |
| `IngestWalk.RunWrites` | infrastructure/raw-writer-2/mongo.go:54-83 | a run changes each collection by inserts alone, of documents whose `meta` values are all strings |
| `IngestWalk.VisitsAreStates` | infrastructure/raw-data-bridge/server.go:183-191 | the collections a walk reads are those of the protocol's states between its chunks of steps |
| `IngestWalk.IngestWalkIsTyped` | infrastructure/raw-data-bridge/rdt/rdt.go:342-346 | a collection only raw-writer-2 writes has keys of one type whenever a walk begins, and only grows during it |
| `IngestWalk.ConcurrentIngestWalk` | infrastructure/raw-data-bridge/server.go:183-191 | a compacted walk overlapping any requests, failures and crashes serves every key stored before it exactly once, by a document at least as new |
| `Responses.EveryScheduleReplies` | infrastructure/raw-data-bridge/server.go:274-286 | for every schedule at most eight retrievals are in flight and at most 32 asked for, and a finished group replies as sequential inlining would, 200 exactly when every retrieval succeeds |
| `Responses.NeverStuck` | infrastructure/raw-data-bridge/server.go:274-279 | until every goroutine has ended one of them can move |
| `Responses.SchedulesEnd` | infrastructure/raw-data-bridge/server.go:274-279 | every schedule ends after at most three steps a document |
| `Responses.InlineRawData` | infrastructure/raw-data-bridge/server.go:119-152 | overwrites one document in place, and on a failure has only normalised its binary data |
| `Responses.CountReferences` | infrastructure/raw-data-bridge/server.go:262-267 | counts the documents that have a reference, before anything is fetched |
| `Responses.RefCountIs` | infrastructure/raw-data-bridge/server.go:262-267 | the count is the number of documents with a reference |
| `Responses.RespondPage` | infrastructure/raw-data-bridge/server.go:250-302 | replies 413 with the page untouched exactly when more than 32 documents have a reference, 200 with every document inlined exactly when it does not and every retrieval succeeds, else 500, the same for every scheduling of its goroutines |
| `Server.GetDocument` | infrastructure/raw-data-bridge/server.go:312-354 | answers with the document a URN addresses and its payload, or 400, 404 or 500, each exactly in its case |
| `Server.GetPage` | infrastructure/raw-data-bridge/server.go:162-302 | 400 exactly for a bad name, limit or token, 404 exactly for a first page of an absent collection, 413 and 500 exactly for what the payloads do; otherwise the documents of the page, at most as many as asked for, and the last one's token exactly when more remain |
| `HttpWalk.LowLimitIsAnswered` | infrastructure/raw-data-bridge/server.go:262-273 | lowering the limit unblocks a walk: with any cursor in hand, a request for at most 32 documents is not refused, and where the retrievals succeed is answered with the page's own documents in order |
| `HttpWalk.HttpRunIsAWalk` | infrastructure/raw-data-bridge/server.go:250-302 | the pages of a client that asks again with the same token, under any limits, after refusals and failed retrievals, are the pages of a walk |
| `HttpClient.WalkPages` | infrastructure/raw-data-bridge/server.go:183-191 | a client of the endpoint that hands every token back, and asks again with it after a 413, a 500 or a refused limit, receives the pages of that walk with their payloads, whatever is written in between |
| `HttpClient.Ask` | infrastructure/raw-data-bridge/server.go:162-302 | each of its requests is answered with the walk's next page, or not at all, exactly as the walk says |
| `HttpWalk.HttpWalkServes` | infrastructure/raw-data-bridge/server.go:183-191 | so they come in the view's strict order, and a key present throughout is served once under the same exact condition |
| `HttpWalk.HttpWalkIsNotOlder` | infrastructure/raw-data-bridge/server.go:183-191 | and under inserts nothing served is older than what its key had when the client began |
| `HttpWalk.RefusalFreeIff` | infrastructure/raw-data-bridge/server.go:262-273 | in either view, a limit is safe for every collection and cursor exactly when it is at most 32 |

## Left out

- MongoDB, RabbitMQ, S3 and HTTP themselves: a page read is one atomic read of the collection, and inserts, publishes,
  uploads and deletes are steps that may fail, for raw-writer-2 also after taking effect.
- The URN library, which is not part of this repository: its layout is taken from `docs/guidelines.md:47-68`, and
  building a URN from a provider may fail like any other step.
- zstd and the hash themselves: compression, decompression and the truncated hash are arbitrary functions, and what is
  needed of them is a condition of the results that need it.
- BSON types other than string, ObjectId, boolean and null: numbers, arrays and subdocuments under `meta` or in a token are
  not modelled, nor are the driver's case-insensitive matching of struct fields and duplicate element names beyond what a
  lookup sees.
- Errors of the driver while a cursor is read, and everything else that makes a query answer 500.
- `WalkGuarantees.ServedIsNotOlder`: is about inserts only, as a deletion can make an older document current again.
- `RawWriter.HandleMqMsg`: takes the ObjectId the driver will assign as an input, and a body without an `_id` of its own.
- `Objects.Retrieve`: takes what each attempt meets as an input and leaves out the delays between attempts.
- `Rdt.Bridge.GetCompacted`: looks for an absent collection after cutting the page, the code before it; no answer differs.
- Cancellation of a request by its client while a page is inlined.
- Harvesting the headers, sniffing the media type and parsing the RFC 3339 timestamp: a request carries their results, and
  a key's stamp is any text of its fixed length. A request whose timestamp does not parse is answered 400 like one with
  missing metadata.
- Panics on unchecked type assertions in `raw-writer` for a timestamp that is not a string, a null provider, or a
  caller-supplied `_id`.
- Running one `Atom` twice; the code builds a fresh one for every message.
- Redelivery of a nacked message by the broker: it counts as a new message.
- The `provider`, `provenance` and textual `timestamp` fields of a document, which nothing modelled here reads.
- `Document.MarshalJSON`, the response envelope and error texts: single-branch facts.
- Tracing, logging, health checks, configuration, Python and shell tooling, helm charts and `devops/encore`.
