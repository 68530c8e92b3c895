# Proofs for the PDF inspector core

This project models the parts of the PDF inspector whose behaviour is hardest to see by reading: the walks of the
object graph, the BER normalizer, the structural diff, the bounded printers and counters, the content-stream lexer,
and the protocols that run concurrently. `dafny verify dfyconfig.toml` checks everything.

A document is a finite map from object numbers to objects; a lookup that fails, or gives null, resolves to nothing.
Code that changes state step by step is a class whose methods are proved against functions of the old state; what the
program promises is then proved about those functions. Concurrent code is a machine whose steps are the critical
sections between lock operations, and its properties hold for every interleaving.

Where the program reads or makes a text, a tree or a list, the result is also told by a description of its own: words
and white space for the lexer, nested blocks for the formatter, digits in either case for hexadecimal text, identifier
octets for BER, planned page trees, trails of references, the steps of either document for the diff. These descriptions
are written apart from the functions that the loops are proved against; the method that starts the operation ensures
them, or a lemma ties them to what it ensures.

| area | modules | what is proved |
|---|---|---|
| image walk | `ImageGraph` `ImageTrace` `ImageMemo` `ImageSteps` `ImageReach` `ImageIndex` `ImageMemoWalk` `ImageOrder` `ImageWalker` `ImageCap` | the memoised walk lists what a plain depth-first walk lists, in the order of the paths; complete pages are exact; issues name exactly the pages cut short; when a reused walk is flagged rightly |
| BER to DER | `BerSyntax` `BerParser` `BerExact` `BerDer` `BerRecords` `BerOctets` `BerNormalizer` | the three passes agree; the output is the DER form, also told by its octets, and means the same |
| structural diff | `PdfObjects` `DiffWalk` `DiffSound` `DiffRenumber` `DiffPaths` `DiffTexts` `DiffDocuments` | what each node says of either side; when no delta means that documents agree along every path; a renumbered document has no delta |
| reference graph | `RefGraph` `RefSearch` `RefTrails` `ReverseRefs` `RefReach` `ReachableSet` `PathSearch` `RefAgreement` | three searches are exact and agree |
| page tree | `PageTree` `PageLog` `PageNumbers` `PagePlan` `PageWalker` | numbering, inheritance and trouble rows against the tree they describe, and the pages of any tree as it was planned |
| filter counting | `FilterReaders` `HexText` `StageCount` `StageReader` | incremental readers chained through capped counters: when the verdict is that on the uncapped filters, whatever the reads |
| object source | `SourcePrinter` `SourceBrackets` `SourceLayout` `SourceTokens` | capped printing keeps the longest run of whole entries, line by line; brackets balance; the text lexes back to the value |
| content streams | `ContentLexer` `LexerJoin` `LexerGrammar` `LexerWords` `LexerForms` `Tokenizer` `FormatGrammar` `FormatRows` `Formatter` | lexing reads exactly the written words, loses nothing and joins; nested blocks format to their lines |
| ToUnicode ranges | `Utf16` `BfRange` | base-65536 arithmetic and lossless UTF-16 reading |
| recent-files saver | `Flusher` `FlusherSafety` `FlusherLaws` | saves never overlap and none is lost; a batch costs one save |
| locks | `Locks` `LockTable` `LockSafety` | no deadlock, one value per cache |
| disk watcher | `Watcher` `WatcherSafety` `WatcherLaws` | events settle, are ordered and rest on fresh observations |

## Where the code differs from what it says

- `asciiHexReader` is said to end at the `>` marker. After a lone digit and a stop, the same `Read` call goes on behind
  the stop, so what it gives depends on the read sizes (`FilterReaders.HexReadsReach`). Counts are those of the uncapped
  filters if and only if no digit follows a stop that comes after an odd number of digits, on every hexadecimal stage up
  to the first in error (`StageCount.CountsAreExactIff`). `StageCount.HexVerdictDepends` is the input `1>23` under a
  limit of one byte: two outcomes with different verdicts.
- The incomplete flag of a page can be set although its walk lost nothing, once the nesting cap cuts some walk: a form
  stopped at the cap is not put in the guard, so the walk can be reused below that very form. A reused walk's flag is
  right if and only if the cap did not cut the walk, or something in it cannot be read, or a form it met at the cap is
  not above it where it is reused (`ImageCap.ReusedFlagIff`). `ImageCap.CappedReuseOverReports` runs the walker, under
  its real budgets, over a document where it is wrong.
- The diff's cycle cut fires when either side alone is on its own path, and then compares only summaries.
  `DiffDocuments.BackEdgeHidesChange` is a pair of documents that differ and show no delta. A walk without a delta means
  that the documents agree along every path if and only if the targets of every cut pair that the walk does not account
  for do (`DiffSound.CleanDocumentsAgree`). Documents without reference cycles have no cuts at all
  (`DiffSound.AcyclicDocumentsAgree`).
- Closing the recent-files saver twice can make two saves overlap (`FlusherSafety.TwoClosesOverlap`). However often it
  is closed, saves begin to overlap if and only if a Close passes its wait with a dirty list while another Close is
  saving (`FlusherSafety.OverlapBeginsIff`).
- A tab that leaves the set of watched tabs and comes back while its stat is under way can report what was seen before
  a recorded status (`WatcherSafety.RewatchedTabReportsStale`). After a record is applied this can happen if and only
  if at least two of the tab's stats are under way (`WatcherSafety.StaleFollowsIff`).
- `parseBfrange` is commented as leaving the leading units of a base constant; it carries into them, and the model
  follows the code.

## Model

| member | source | states |
|---|---|---|
| ImageTrace.TraceIsWell | internal/pdfcore/imageindex.go:491-546 | a walk enters no form above it and skips only forms above it, and every form its entries or the entered forms name was entered, skipped or met at the cap |
| ImageTrace.UnskippedReachesNothingAbove | internal/pdfcore/imageindex.go:644-681 | the strongly-connected-component argument: in a form walk that skipped nothing above itself and met no cap, no entered form can reach any form above |
| ImageTrace.MoveWalk | internal/pdfcore/imageindex.go:491-546 | a walk of entries below one stack is, image for image and path for path, the walk below any other stack that its entered forms do not meet, as long as the cap falls in the same place or not at all |
| ImageTrace.MoveForm | internal/pdfcore/imageindex.go:644-681 | the same for one form, with its trace and its incomplete flag |
| ImageMemo.StoreIsSound | internal/pdfcore/imageindex.go:666-677 | a form walk none of whose cycles closes above the form can be stored: its guard holds every form it entered that can reach back |
| ImageMemo.StoreUnreadable | internal/pdfcore/imageindex.go:661-677 | a form with unreadable resources is stored as an incomplete walk of nothing |
| ImageMemo.FreshIsSound | internal/pdfcore/imageindex.go:644-681 | what a fresh form walk hands to its caller (guard, lowest cycle) accounts for every skip, cap and way back in the plain walk |
| ImageMemo.ReuseIsSound | internal/pdfcore/imageindex.go:633-656 | a stored walk whose guard misses the current stack, and whose cap falls in the same place, is the plain walk below the current stack |
| ImageSteps.StepSeen | internal/pdfcore/imageindex.go:521-529 | an object already reached adds nothing, yet what it would have entered is already accounted for |
| ImageSteps.StepNothing | internal/pdfcore/imageindex.go:521-561 | a direct value, or an object that is no image and no form, adds nothing |
| ImageSteps.StepCycle | internal/pdfcore/imageindex.go:530-533 | a form above the entries is skipped and lowers the lowest cycle to its stack position |
| ImageSteps.StepFailing | internal/pdfcore/imageindex.go:534-543 | an object that cannot be read makes the walk incomplete, with an issue |
| ImageSteps.StepImage | internal/pdfcore/imageindex.go:565-568 | an image is listed under its own resource name |
| ImageSteps.StepCapped | internal/pdfcore/imageindex.go:569-576 | a form at the nesting cap makes the walk incomplete and capped, which happens only when a chain of distinct forms passes the cap |
| ImageSteps.StepForm | internal/pdfcore/imageindex.go:577-606 | merging a form's walk keeps a sound walk sound: images, flags, height and guard |
| ImageSteps.SoundListsOnce | internal/pdfcore/imageindex.go:481-490 | a sound walk lists each image once |
| ImageReach.PlainPathsLead | internal/pdfcore/imageindex.go:93-119 | every listed resource path, followed from the page's resources through forms, ends at a reference to its image with the generation listed |
| ImageReach.PathReaches | internal/pdfcore/imageindex.go:93-119 | an image some path leads to is reachable |
| ImageReach.CompleteReachesAll | internal/pdfcore/imageindex.go:491-546 | a walk that is not incomplete has reached every image of every form it could enter, cycles and caps included |
| ImageReach.CompletePageIsExact | internal/pdfcore/imageindex.go:434-460 | the images of a page walked to its end are exactly those reachable through forms, each once, each under a path that leads to it |
| ImageReach.IncompleteIff | internal/pdfcore/imageindex.go:491-546 | a plain walk is incomplete if and only if it names or enters something that cannot be read, or meets at the cap a form that is not above it |
| ImageOrder.PlainInOrder | internal/pdfcore/imageindex.go:491-609 | the images of a plain walk are those some path leads to, each once, each under the first such path, in the order in which these paths take the entries |
| ImageOrder.OneWalkOrder | internal/pdfcore/imageindex.go:93-119 | there is only one such list |
| ImageOrder.PageInOrder | internal/pdfcore/imageindex.go:93-119 | a page's plain walk lists its images in this order |
| ImageIndex.AddPage | internal/pdfcore/imageindex.go:396-429 | adding one page's group keeps groups and page lists in order and inverse to each other, also when an empty group is left out |
| ImageIndex.AddGroup | internal/pdfcore/imageindex.go:325-345 | appending a group changes no earlier page's group, and a page left out reads as complete and without images |
| ImageIndex.DropUnused | internal/pdfcore/imageindex.go:363-381 | dropping images without pages keeps page lists and groups inverse |
| ImageIndex.CompleteGroupIsExact | internal/pdfcore/imageindex.go:93-119 | a group that is not incomplete lists exactly the images reachable from its page's resources |
| ImageWalker.Walker.constructor | internal/pdfcore/imageindex.go:291-302 | a new walker has charged and stored nothing, which is where a build starts |
| ImageWalker.Walker.ChargeUses | internal/pdfcore/imageindex.go:614-623 | retained uses never pass their limit; a charge that does not fit changes no count and stops the walk at the page of the first such charge |
| ImageWalker.Walker.Issue | internal/pdfcore/imageindex.go:725-734 | one issue per failing object: a known key gives its id back and changes nothing |
| ImageWalker.Walker.WalkResources | internal/pdfcore/imageindex.go:491-546 | unless the walk stops, memo tables or not, the images are the plain walk's and guard, height and lowest cycle account for its trace; what it finds, stores and charges is what the functional memoised walk does, and it stops only if that does not fit the budgets; the stack is restored |
| ImageWalker.Walker.VisitXObject | internal/pdfcore/imageindex.go:553-609 | one entry keeps the walk equal to the plain walk of the entries so far, and an object that fails to resolve changes nothing |
| ImageWalker.Walker.MergeForm | internal/pdfcore/imageindex.go:578-606 | unless a charge stops it, the images of a form are merged under its name, already reached ones left out, and its issues and guard appended; ImageOrder.PlainInOrder fixes the order in which they stand |
| ImageWalker.Walker.WalkForm | internal/pdfcore/imageindex.go:633-681 | reused or fresh, a form's walk is the plain walk below the current stack; whether it is reused, and all that it stores and charges, is told by the walks stored so far |
| ImageWalker.Walker.Store | internal/pdfcore/imageindex.go:668-677 | a finished walk replaces a stored one unless that was made nearer the page, and every stored walk stays sound |
| ImageWalker.Walker.WalkPage | internal/pdfcore/imageindex.go:431-460 | a page that shares its resources gets the stored walk, which is the plain walk of those resources |
| ImageWalker.Walker.NoteIssuePage | internal/pdfcore/imageindex.go:736-749 | an issue's page ranges name exactly the pages noted so far, however they are joined |
| ImageWalker.Walker.WalkLeaf | internal/pdfcore/imageindex.go:394-429 | one page's group is its plain walk; it is incomplete exactly when the page failed to read or some issue names it; a page after the stop changes nothing |
| ImageWalker.Walker.Build | internal/pdfcore/imageindex.go:304-392 | groups and page lists are inverse; both budgets hold; before the stop every group is its plain walk, its images in the order of the first paths that lead to them, and incomplete exactly when an issue names it or its page failed; groups not incomplete are exactly the reachable images; nothing follows the stop; unless the functional walk of all pages passes a budget, the walker does not stop and its groups are those |
| ImageCap.ReusedFlagIff | internal/pdfcore/imageindex.go:633-656 | a reused walk's incomplete flag is that of the plain walk if and only if the cap did not cut it, it enters a form with something that cannot be read, or a form it meets at the cap is not above it where it is reused |
| ImageCap.LoopIsStored | internal/pdfcore/imageindex.go:569-576 | coming down a chain of 32 forms each is stored, cut by the cap, with the forms below it as its guard but not the form stopped at the cap |
| ImageCap.SecondPage | internal/pdfcore/imageindex.go:644-656 | the memoised walk of a second page, which names that form, reuses the stored walk and is flagged incomplete |
| ImageCap.CappedReuseOverReports | internal/pdfcore/imageindex.go:633-681 | the walker, with its real budgets and two pages, does not stop and marks the second page incomplete, though the plain walk there is complete |
| ImageCap.DeepChain | internal/pdfcore/imageindex.go:569-576 | that document has a chain of distinct forms past the cap |
| BerParser.TagSound | internal/pdfcore/ber.go:155-191 | accepted identifier octets are a valid low or minimal high tag number |
| BerParser.TagComplete | internal/pdfcore/ber.go:155-191 | every valid identifier is accepted and ends where it ends |
| BerParser.LengthSound | internal/pdfcore/ber.go:192-233 | accepted length octets encode the length found, which fits the limit, and an indefinite one needs a constructed element |
| BerParser.LengthComplete | internal/pdfcore/ber.go:192-233 | every supported form of a length is read back |
| BerExact.HeaderSound | internal/pdfcore/ber.go:153-233 | a parsed header is the octets it was parsed from |
| BerExact.HeaderComplete | internal/pdfcore/ber.go:153-233 | the header of any allowed encoding is parsed as it was written |
| BerExact.ItemSound | internal/pdfcore/ber.go:259-353 | a decoded element is an allowed encoding that unparses to exactly the octets between its start and end |
| BerExact.ItemComplete | internal/pdfcore/ber.go:259-353 | every allowed encoding within the limit and depth decodes to its own tree |
| BerExact.KidsSound | internal/pdfcore/ber.go:235-257 | decoded contents end at the definite length or at end-of-contents, and unparse to the octets between |
| BerExact.KidsComplete | internal/pdfcore/ber.go:235-257 | any sequence of allowed encodings, definite or indefinite, is decoded whole |
| BerExact.DecoderIsExact | internal/pdfcore/ber.go:259-414 | an element is accepted, with a given tree and end, if and only if the octets up to that end are an allowed encoding of that tree no deeper than the limit |
| BerDer.DerOfIsDer | internal/pdfcore/ber.go:20-47 | the target form has definite minimal lengths and no constructed string (sections 10.1 and 10.2 of X.690) |
| BerDer.DerIsFixed | internal/pdfcore/ber.go:20-47 | an element already in that form is its own target |
| BerDer.DerKeepsValue | internal/pdfcore/ber.go:20-47 | the target means the same: strings are the concatenation of their segments, BIT STRINGs with the last segment's unused bits (sections 8.6.4, 8.7.3 and 8.23 of X.690) |
| BerDer.DerDepth | internal/pdfcore/ber.go:259-353 | the target is no deeper |
| BerDer.DerChecks | internal/pdfcore/ber.go:42-75 | the target of an allowed encoding is itself an allowed encoding |
| BerDer.DerSize | internal/pdfcore/ber.go:42-75 | the target is longer by at most four octets per constructed element |
| BerDer.MinFormShortest | internal/pdfcore/ber.go:128-151 | no definite form of a length is shorter than the one written |
| BerDer.MinFormValid | internal/pdfcore/ber.go:128-151 | the written form of any length below 2^32 is one the decoder reads |
| BerOctets.LengthOctets | internal/pdfcore/ber.go:128-151 | the minimal length octets, one by one: below 128 the length itself, up to 2^32 a count and the big-endian digits, none of them a leading zero |
| BerOctets.DerIsOctets | internal/pdfcore/ber.go:20-47 | an element is in DER form if and only if, at no depth, it holds a constructed identifier of one of the universal string types, each named by its octet, and all its lengths are minimal |
| BerOctets.WrittenIsOctets | internal/pdfcore/ber.go:48-76 | what is written for an allowed encoding holds no such identifier and only minimal lengths |
| BerOctets.StringIsJoined | internal/pdfcore/ber.go:288-414 | a string in segments, however nested, is written as its primitive identifier, the minimal length and the joined segments, a BIT STRING with the last segment's unused bits |
| BerOctets.SegmentsAllowed | internal/pdfcore/ber.go:355-414 | such a string is read exactly when its segments have its own identifier, or that of OCTET STRING in a string of characters, every length fits, and only the last part of a BIT STRING leaves bits unused |
| BerOctets.TwoSegments | internal/pdfcore/ber.go:288-295 | 24 80 04 01 41 04 01 42 00 00 is written as 04 02 41 42 |
| BerRecords.CheckTracksBits | internal/pdfcore/ber.go:362-414 | the bit state carried through nested segments is that of the last segment in document order |
| BerNormalizer.BerLenSize | internal/pdfcore/ber.go:128-139 | the size computed beforehand is the number of octets written |
| BerNormalizer.AppendBERLength | internal/pdfcore/ber.go:141-151 | the octets appended are the minimal form, by shifting digits out from the top |
| BerNormalizer.Normalizer.ReadHeader | internal/pdfcore/ber.go:153-233 | the header read is the parser's, and it is noted as BER exactly when its length is not in minimal form |
| BerNormalizer.Normalizer.ReadTag | internal/pdfcore/ber.go:155-191 | the loop over high tag octets stops where the parser does, with the same errors |
| BerNormalizer.Normalizer.ReadLength | internal/pdfcore/ber.go:192-233 | the length, its form and every error agree with the parser |
| BerNormalizer.Normalizer.ReadNumber | internal/pdfcore/ber.go:205-226 | the accumulated number is the big-endian one, and comparing its octet count with the minimal size tells whether the form was minimal |
| BerNormalizer.Normalizer.Element | internal/pdfcore/ber.go:259-353 | in each pass an element fails exactly as the decoder does, returns the decoder's end and the emitted length, records or consumes its own records in pre-order, and emits its DER octets |
| BerNormalizer.Normalizer.Elements | internal/pdfcore/ber.go:311-346 | the same for the contents of a constructed element, whose records stand one after another |
| BerNormalizer.Normalizer.StringElement | internal/pdfcore/ber.go:297-352 | a constructed string records one length, and for a BIT STRING one unused-bits octet, and emits one primitive element |
| BerNormalizer.Normalizer.Segments | internal/pdfcore/ber.go:355-414 | all nested segments are flattened into their concatenation, with the final bit state |
| BerNormalizer.Normalizer.Segment | internal/pdfcore/ber.go:355-414 | one segment, primitive or constructed, is flattened, and fails exactly when the decoder does |
| BerNormalizer.Normalizer.Normalize | internal/pdfcore/ber.go:48-76 | once the check pass succeeds the other two cannot fail; the element's exact end and tail are found; isBER is false exactly for an element in DER form, whose octets are returned unchanged, and true exactly when some element has a constructed string identifier or a length that is not minimal, of which the output has neither; every record is consumed |
| BerNormalizer.NormalizationIsSound | internal/pdfcore/ber.go:20-76 | for output below 2^32 octets: it decodes to its end as a DER tree with the input's value, no segmented string and only minimal lengths, normalizing it again returns it, and it exceeds the input element by at most four octets per constructed element |
| BerNormalizer.DerIsCopy | internal/pdfcore/ber.go:48-76 | what would be emitted for an element already in DER form is its own octets |
| DiffSound.PresentSound | internal/pdfcore/diff.go:272-299 | the values below a clean node match down to the depth cap or to accepted pairs, and every pair entered below it is settled |
| DiffSound.RelatedAgree | internal/pdfcore/diff.go:444-515 | when every accepted pair is settled the accepted pairs are a bisimulation: related values agree along every path |
| DiffSound.CleanDocumentsAgree | internal/pdfcore/diff.go:174-263 | for a walk with no delta left, the documents agree along every path from their catalogs if and only if each pair the walk cut as a cycle is one it accounts for or has targets that agree along every path |
| DiffSound.AcyclicDocumentsAgree | internal/pdfcore/diff.go:174-263 | for documents without reference cycles nothing is cut, and no delta proves agreement along every path |
| DiffRenumber.SameHasNoChange | internal/pdfcore/diff.go:272-394 | conversely, documents that agree along every path down to their comparison texts show no added, removed or changed node, whatever the depth cap cuts |
| DiffRenumber.AgreeingHasNoChange | internal/pdfcore/diff.go:272-394 | documents that agree along every path show no added, removed or changed node if and only if the pairs that are compared by summary alone, cut or unresolved, have equal summaries |
| DiffRenumber.CompareRename | internal/pdfcore/diff.go:666-787 | the comparison text of a value does not depend on object numbers |
| DiffRenumber.RenumberedHasNoChange | internal/pdfcore/diff.go:444-503 | a document and any bijective renumbering of it are walked in lockstep, cycles, sharing and dangling references included, with no change and only accounted cuts |
| DiffPaths.NodeTells | internal/pdfcore/diff.go:344-430 | a node stands at a path; it is added exactly when only the right side has a value there, removed exactly when only the left one has; a leaf is changed only where kinds or texts differ |
| DiffPaths.StepIsOne | internal/pdfcore/diff.go:344-430 | the node of a key or index is its own: the i-th key in byte order, or the i-th index |
| DiffPaths.WalkIsTold | internal/pdfcore/diff.go:174-263 | so it is for every node of the diff of two documents, and every key or index on either side of a walked pair has exactly one node |
| DiffPaths.CountIsTally | internal/pdfcore/diff.go:579-609 | the summary counts the added and removed nodes, the changed leaves and the nodes left unwalked, over all nodes of the tree |
| DiffTexts.CompareIsFaithful | internal/pdfcore/diff.go:666-787 | two values have the same comparison text if and only if they have the same keys, or as many elements, and entries that look alike one by one, where no text in them has a blank or is the token for another value |
| DiffTexts.BlankHidesElements | internal/pdfcore/diff.go:758-787 | where a text has a blank that fails: one string element and two other elements have the same text |
| PdfObjects.BeforeIsByteOrder | internal/pdfcore/diff.go:737-756 | keys are in byte order: one comes before another exactly when it does so at the first place where they differ |
| DiffDocuments.DiffContext.DiffPresent | internal/pdfcore/diff.go:272-394 | the in-place walk computes the functional one, leaves both path sets as it found them, and enters no pair twice; DiffPaths.NodeTells says what its nodes mean |
| DiffDocuments.DiffContext.DiffChild | internal/pdfcore/diff.go:434-515 | the same at a child: dedup, cycle cut, depth cap and descent |
| DiffDocuments.DiffContext.CountDelta | internal/pdfcore/diff.go:579-609 | the tally grows by exactly the delta points of the tree |
| DiffDocuments.DiffContext.Diff | internal/pdfcore/diff.go:174-263 | the diff's tree, pairs and summary are the walk's; each node says what either side has at its path, and the summary counts them; with an empty summary the documents agree along every path if and only if every cut pair is accounted for or has agreeing targets |
| DiffDocuments.DiffIsSound | internal/pdfcore/diff.go:546-609 | the same, for the reconciled and counted tree |
| DiffDocuments.BackEdgeHidesChange | internal/pdfcore/diff.go:444-503 | two documents that differ two steps from the catalog and yet show no delta, because one side's cycle cut a pair never entered |
| RefGraph.OccInIsExact | internal/pdfcore/reverserefs.go:150-263 | the recursive scan of one object lists every reference inside it under its own path, each location once, and nothing else |
| RefGraph.ClosedHoldsWithin | internal/pdfcore/reverserefs.go:40-81 | reachability is the least set that holds what the catalog names and what its members name |
| RefSearch.EdgesOfExact | internal/pdfcore/reverserefs.go:198-263 | the edges recorded for an object are exactly those due from the sources scanned |
| RefSearch.EdgesOfOnce | internal/pdfcore/reverserefs.go:198-263 | no edge is recorded twice, references back to the catalog included |
| RefSearch.RouteIsWithin | internal/pdfcore/reverserefs.go:40-81 | a path through n references reaches its target in n |
| RefSearch.NoteKeeps | internal/pdfcore/reverserefs.go:198-263 | noting one occurrence keeps the breadth-first invariant: levels rise by at most one along the queue, and every first-found path has the fewest references |
| RefSearch.NextKeeps | internal/pdfcore/reverserefs.go:56-81 | taking the next queued object keeps it, and everything nearer is already visited |
| RefTrails.ReachableIff | internal/pdfcore/reverserefs.go:40-81 | an object is reachable if and only if a trail leads to it: the catalog holds a reference to the first object, and each object, stored and not null, holds one to the next |
| RefTrails.FewestIsNearest | internal/pdfcore/reverserefs.go:40-81 | a path of fewest references goes along a trail than which none is shorter |
| ReverseRefs.ReachableIsVisited | internal/pdfcore/reverserefs.go:40-81 | a finished scan has visited everything reachable |
| ReverseRefs.FinishedIsExact | internal/pdfcore/reverserefs.go:40-81 | the index a finished scan leaves is exact, without repeats, with nearest parent paths |
| ReverseRefs.ExactIsSpelledOut | internal/pdfcore/reverserefs.go:40-81 | told over the stored objects: the edges listed for an object are the places where the catalog, or an object that a trail leads to, holds a reference to it, each with a path along a shortest trail |
| ReverseRefs.ReferencedIff | internal/pdfcore/reverserefs.go:40-81 | an object has an inbound edge if and only if the trailer gives the catalog a key and it is reachable, or a reachable object refers to it |
| ReverseRefs.ReferencedIffReachable | internal/pdfcore/reverserefs.go:40-81 | with such a key, an object has an inbound edge exactly when it is reachable from the catalog |
| ReverseRefs.Index.Build | internal/pdfcore/reverserefs.go:29-81 | for every object, the inbound edges are precisely the references to it inside the catalog or a reachable object that resolves, each once, each with a path of fewest references to its parent; the same told by trails over the stored objects |
| ReverseRefs.Index.ScanContainer | internal/pdfcore/reverserefs.go:150-192 | scanning a container notes its references in order |
| ReverseRefs.Index.HandleValue | internal/pdfcore/reverserefs.go:194-263 | a reference is recorded, and its target queued the first time only; a nested container is scanned in place |
| ReverseRefs.Index.RecordCatalogChild | internal/pdfcore/reverserefs.go:265-290 | a reference in the catalog is recorded under the key the trailer gives the catalog, and not at all without one |
| RefReach.SettledHoldsReachable | internal/pdfcore/objectindex.go:98-139 | once nothing is pending, everything reachable is marked |
| ReachableSet.QueueKeeps | internal/pdfcore/objectindex.go:147-173 | marking or queueing one value of a container keeps the search complete and sound, and never adds work |
| ReachableSet.Search.Build | internal/pdfcore/objectindex.go:95-139 | the set is exactly the numbers that trails from the catalog lead to, with the catalog's own, on any cyclic graph |
| ReachableSet.Search.QueueRefs | internal/pdfcore/objectindex.go:147-173 | a reference marks its number and queues its object the first time; a container is queued |
| PathSearch.ChainReaches | internal/pdfcore/inspector.go:576-682 | a linked chain from the catalog ends at a reachable object |
| PathSearch.Search.Find | internal/pdfcore/inspector.go:576-682 | a path is found if and only if some trail leads to the object, and it is a trail from the catalog that ends at the target |
| PathSearch.Search.Visit | internal/pdfcore/inspector.go:576-682 | one value either is the target, ending the path, or is marked and queued without losing anything pending |
| RefAgreement.ReachableAreReferenced | internal/pdfcore/objectindex.go:98-139 | the reachable numbers are the catalog's own and those of the objects with an inbound edge |
| RefAgreement.FoundAreReferenced | internal/pdfcore/inspector.go:576-682 | a path is found to exactly the objects with an inbound edge |
| PageTree.AttrIsNearest | internal/pdfcore/pageindex.go:446-490 | an inheritable attribute has a value exactly when some node on the way down has an own entry that resolves, and it is the nearest such node's (section 7.7.3.4 of ISO 32000-1) |
| PageTree.UnresolvedIsNearest | internal/pdfcore/pageindex.go:446-490 | an attribute is noted unresolved at the nearest node with an own entry exactly when that entry resolves to nothing |
| PageLog.AddRowKeeps | internal/pdfcore/pageindex.go:216-223 | a row that holds of the node it stands for keeps the listing faithful, in document order |
| PageLog.DescendKeeps | internal/pdfcore/pageindex.go:269-306 | descending keeps no indirect node entered twice and no row above a node entered |
| PageLog.SameBelow | internal/pdfcore/pageindex.go:269-306 | two positions with the same indirect node have the same tree below them |
| PageLog.PageIsListed | internal/pdfcore/pageindex.go:190-359 | every page node of a shared or cyclic tree is on a numbered row for the same value, or lies below a node that a row notes as too deep |
| PageNumbers.NumbersAreDistinct | internal/pdfcore/pageindex.go:342-359 | page numbers rise from row to row |
| PagePlan.PlacesArePlanned | internal/pdfcore/pageindex.go:252-306 | the rows of a planned tree stand for its pages in document order, and for nothing else |
| PagePlan.PlanIsListed | internal/pdfcore/pageindex.go:188-359 | a tree planned as groups of pages and groups, direct or indirect, no group twice and none deeper than 1024, is listed as its pages from one up: the dictionary and reference of each, its attributes in effect, own before those of the group around it, which are inherited, and the first number its object was listed under |
| PageWalker.EveryPageIsNumbered | internal/pdfcore/pageindex.go:190-359 | every page node, however it is reached, has a number, and the leaf kept under that number is its dictionary and reference, or lies below a node that a row notes as too deep |
| PageWalker.Walker.Walk | internal/pdfcore/pageindex.go:188-214 | the walk ends on any graph, and every position is listed, below a listed one, or descended into; each row holds of its node, rows are in document order, numbers run from one up and stand for their leaves; and whatever the tree is planned as, the planned pages are listed |
| PageWalker.Walker.VisitIntermediate | internal/pdfcore/pageindex.go:269-306 | a node too deep, met elsewhere before, or without a kids array is one row; any other is descended into and all its kids are accounted for |
| PageWalker.Walker.VisitKid | internal/pdfcore/pageindex.go:308-340 | a cycle, a dangling reference and a value that is no dictionary are each noted as what they are |
| PageWalker.Walker.VisitLeaf | internal/pdfcore/pageindex.go:342-359 | a page takes the next number, and names the first number of its object when listed again |
| PageWalker.Walker.EffectiveAttrs | internal/pdfcore/pageindex.go:446-490 | each attribute is the own one when it resolves, else the inherited one, and the inherited bits say which |
| FilterReaders.HexRoundTrip | internal/pdfcore/streamcount.go:274-337 | hexadecimal text ended by its marker decodes to the bytes written, whatever follows (section 7.4.2 of ISO 32000-1) |
| FilterReaders.HexReadMeans | internal/pdfcore/streamcount.go:282-308 | a read that meets no stop gives the next decoded bytes; one that does gives all the rest |
| FilterReaders.HexReadIsExactWhenClean | internal/pdfcore/streamcount.go:282-308 | one read with room to spare gives exactly the decoded input if and only if no digits follow a stop after a lone digit |
| FilterReaders.DecodedIsFront | internal/pdfcore/streamcount.go:282-308 | what the text decodes to is the front of all that reading on can give, and all of it exactly when the text is clean |
| FilterReaders.HexReadsLieBetween | internal/pdfcore/streamcount.go:282-308 | reads of any sizes, one after the other to a stop, give at least the decoded text and at most all there is |
| FilterReaders.HexReadsReach | internal/pdfcore/streamcount.go:282-308 | each amount in between is given by reads of some sizes |
| FilterReaders.HexReadsAreExactIffClean | internal/pdfcore/streamcount.go:282-308 | reads of all sizes give exactly the decoded text if and only if it is clean |
| FilterReaders.HexReadOverruns | internal/pdfcore/streamcount.go:282-308 | for `1>23` reads of one byte give 16, and one read of two bytes gives 16 and 35 |
| HexText.StopIsStop | internal/pdfcore/streamcount.go:310-337 | the reader stops at exactly the bytes that are none of the 22 digits in either case and none of the five white-space bytes |
| HexText.TextIsDecoded | internal/pdfcore/streamcount.go:274-337 | however digits are written, each in either case and after any white space, the text up to its end decodes to their bytes, a lone last digit as if zero followed |
| HexText.TextReadsOn | internal/pdfcore/streamcount.go:282-308 | what reading on can give: behind a lone digit and its stop also what follows, behind an even number of digits nothing |
| HexText.TextIsClean | internal/pdfcore/streamcount.go:282-308 | a text is clean exactly when it has an even number of digits or no digit follows its stop |
| HexText.TextVerdict | internal/pdfcore/streamcount.go:26-84 | for clean text a hexadecimal stage is within the limit exactly when half as many bytes as digits, rounded up, are |
| FilterReaders.RunsAreRead | internal/pdfcore/streamcount.go:339-391 | runs written one after another decode to their expansions, followed by what the rest decodes to (section 7.4.5 of ISO 32000-1) |
| FilterReaders.FaultsWhenCutShort | internal/pdfcore/streamcount.go:339-391 | any input is whole runs and then nothing, the end marker or a run cut short, and it counts as truncated exactly in the last case |
| FilterReaders.EndOfRuns | internal/pdfcore/streamcount.go:339-391 | behind the end marker nothing is read, and of a run cut short only literal bytes are kept and the fault is told |
| FilterReaders.CheckPredictorParms | internal/pdfcore/boundeddecode.go:161-220 | parameters are accepted exactly when each is in bounds and two rows fit the limit |
| FilterReaders.AcceptedRowsFit | internal/pdfcore/boundeddecode.go:161-220 | an accepted row is at least one byte, its bit count is rounded up, it fits the limit twice, and nothing overflows 32 bits |
| FilterReaders.CcittSizeHolds | internal/pdfcore/streamcount.go:493-546 | a fax image's size is unknown exactly without rows or columns; up to the dimension bound it is that of rows of the fewest whole bytes that hold the columns, beyond it and for a negative row count the greatest, and no step leaves 64 bits |
| StageCount.SettledIff | internal/pdfcore/streamcount.go:190-241 | a stage makes one thing of its input, whatever the reads, if and only if it does not read hexadecimal text that is not clean |
| StageCount.Measured | internal/pdfcore/streamcount.go:92-139 | the stages measured are a prefix in which only the last may feed nothing |
| StageCount.JudgeDecides | internal/pdfcore/streamcount.go:70-84 | judging the counts from the first to the last gives the one verdict that the first stage in error, over the limit before cut short, decides |
| StageCount.CleanAgrees | internal/pdfcore/streamcount.go:49-84 | with clean text, up to the first stage in error, capped stages end with what the uncapped filters make, whatever the reads; a stage over the limit ends over it |
| StageCount.CountsAreExactIff | internal/pdfcore/streamcount.go:49-84 | that holds of every way the reads can go if and only if all hexadecimal text up to the first stage in error is clean |
| StageCount.VerdictIsExact | internal/pdfcore/streamcount.go:26-84 | with clean text the verdict on the capped stages is that on the uncapped filters |
| StageCount.VerdictIsSureIff | internal/pdfcore/streamcount.go:26-84 | the verdict is the same for every way the reads can go if and only if it is for each number of bytes that each hexadecimal stage can end with |
| StageCount.HexVerdictIff | internal/pdfcore/streamcount.go:282-308 | for a hexadecimal stage by itself the verdict hangs on the reads exactly when the decoded text fits the limit and all that reading on gives does not |
| StageCount.HexVerdictDepends | internal/pdfcore/streamcount.go:282-308 | `1>23` under a limit of one byte: read byte by byte it is within the limit, as it should be, and in one read it is not |
| StageReader.Stage.ReadByte | internal/pdfcore/streamcount.go:274-349 | a reader takes the next byte of what the counter below handed on, reading more from it in pieces of any size, and meets the end only when that hands on no more |
| StageReader.Stage.NextHexDigit | internal/pdfcore/streamcount.go:310-337 | white space is skipped, and a marker, a byte that is no digit and the end all stop; HexText.StopIsStop and HexText.TextIsDecoded say which bytes these are |
| StageReader.Stage.FillHex | internal/pdfcore/streamcount.go:282-308 | one read of hexadecimal text is the functional read, running on behind a lone digit included; until a stop what is made and what is still to come are the decoded text, after one what is made lies between that and all there is |
| StageReader.Stage.FillRun | internal/pdfcore/streamcount.go:368-391 | one run is decoded: what is made and what is still to come stay the decoded input, and a run the input cuts short is told |
| StageReader.Stage.Step | internal/pdfcore/streamcount.go:190-214 | a library decoder takes one more byte, has had enough, or gives what it has at the end |
| StageReader.Stage.FillRow | internal/pdfcore/streamcount.go:425-447 | one whole row is taken and as many bytes of it are kept as a row has without its tag; a partial row at the end gives nothing |
| StageReader.Stage.Read | internal/pdfcore/streamcount.go:141-154 | a counter hands on at most the bytes asked for and at most one past the limit in all, counts them, gives none only when nothing more will come, and keeps every stage below it consistent |
| StageReader.Stage.Drain | internal/pdfcore/streamcount.go:56-68 | a stage is read to its end in pieces of any size; what it handed on before stays, and a finished stage hands on no more |
| StageReader.Whole | internal/pdfcore/streamcount.go:274-447 | whatever follows the bytes a reader took, what it made is the front of what it can give for the whole input, and all of it once it is done |
| StageReader.EndsSo | internal/pdfcore/streamcount.go:70-82 | a stage that hands on no more ended with its filter's output cut one past the limit, its count passes the limit exactly when that output does, and below the limit its truncated flag is true of its input |
| StageReader.StageCounters | internal/pdfcore/streamcount.go:92-139 | the loop builds one counter for each measured stage, each over the one before, and tells the first filter left out |
| StageReader.DrainAll | internal/pdfcore/streamcount.go:56-68 | draining from the last stage to the first finishes every stage, also one whose successor stopped reading early |
| StageReader.DrainedIsOutcome | internal/pdfcore/streamcount.go:56-84 | drained counters hold outputs that the capped stages can end with, each of all that the one below handed on |
| StageReader.CountStages | internal/pdfcore/streamcount.go:26-84 | for any filters and any reads: measured is true exactly when all filters are; the verdict is what the counted outputs must get; with clean hexadecimal text it is the verdict on the uncapped filters; and it is the one verdict whenever that does not hang on the reads |
| SourcePrinter.KeptIsLongest | internal/pdfcore/objectsource.go:250-296 | the entries kept are the longest run of whole entries that fits the cap |
| SourcePrinter.AllKept | internal/pdfcore/objectsource.go:250-296 | when everything fits nothing is dropped |
| SourcePrinter.InsideIsAppended | internal/pdfcore/objectsource.go:250-360 | kept entries between brackets are the uncapped text, or a text that passed the cap |
| SourcePrinter.FittingIsLongest | internal/pdfcore/objectsource.go:39-133 | the first j entries are printed exactly when the text up to the end of the j-th fits the cap |
| SourcePrinter.FittingIsUncapped | internal/pdfcore/objectsource.go:39-133 | a text that fits is printed as with no cap |
| SourceLayout.PrintIsLaidOut | internal/pdfcore/objectsource.go:246-398 | a printed value is its lines: four spaces for each level, brackets and entries each on a line of their own, keys in byte order, and up to four values that are no containers on one line |
| SourceLayout.CappedIsLaidOut | internal/pdfcore/objectsource.go:39-133 | the capped source of an object is its header line, the lines of the entries that fit, a line with the exact count of the others, the closing line and the envelope |
| SourceTokens.DecimalIsRead | internal/pdfcore/objectsource.go:39-133 | numbers are printed in decimal digits that read back to them, without zeros in front |
| SourceTokens.PrintIsRead | internal/pdfcore/objectsource.go:246-398 | a printed value, at any depth and before any white space, lexes back to the tokens of the value, if each text in it is one word |
| SourceTokens.SourceIsRead | internal/pdfcore/objectsource.go:39-133 | the uncapped source of an object that is no stream lexes to its number, generation, obj, its value and endobj |
| SourcePrinter.SourceWriter.WriteString | internal/pdfcore/objectsource.go:150-172 | a text that does not fit is left out whole, and from then on nothing more is written |
| SourcePrinter.SourceWriter.WriteDict | internal/pdfcore/objectsource.go:246-296 | after rollback the buffer holds whole entries only, then the exact count of the rest, then the closing bracket; uncapped it is the plain text, at any nesting |
| SourcePrinter.SourceWriter.WriteArray | internal/pdfcore/objectsource.go:298-360 | the same for an array of one line per element, and for a short one the plain text or a text past the cap |
| SourcePrinter.SourceWriter.WriteValue | internal/pdfcore/objectsource.go:377-398 | any nested value appends its uncapped text or marks the writer truncated |
| SourcePrinter.ObjectSource | internal/pdfcore/objectsource.go:39-133 | a dictionary, stream or long array prints as header, longest fitting run of entries, marker with the exact count dropped, and closing envelope |
| SourcePrinter.WriteStreamObject | internal/pdfcore/objectsource.go:198-209 | a stream's envelope is always complete, whatever the cap dropped |
| SourceBrackets.PrintIsBalanced | internal/pdfcore/objectsource.go:250-398 | the brackets of any printed value balance, if no text in it holds brackets |
| SourceBrackets.SourceIsBalanced | internal/pdfcore/objectsource.go:150-209 | so do those of a printed object, whatever the cap drops |
| ContentLexer.LexOneCovers | internal/pdfcore/stream.go:318-604 | one step of the lexer consumes white space and its pieces and nothing else, and always moves on |
| ContentLexer.LexingIsLossless | internal/pdfcore/stream.go:318-604 | tokens are the text's slices at ordered, disjoint, non-empty places with only white space between |
| LexerWords.LiteralIsRead | internal/pdfcore/stream.go:360-388 | for every body of plain characters, escaped ones and nested parenthesised bodies, whatever follows, a string is one token that ends with the parenthesis that closes it |
| LexerWords.OpenLiteralIsRead | internal/pdfcore/stream.go:360-388 | a text that closes fewer parentheses than it opens is one string without an end, a backslash at its end included |
| LexerForms.WordIsRead | internal/pdfcore/stream.go:318-604 | each word (comment, string, hexadecimal string, name, number, bracket, operator, inline image), followed by what may follow it, is read whole as its own tokens |
| LexerForms.WrittenIsLexed | internal/pdfcore/stream.go:318-604 | words written one after another with white space between lex to their tokens in order, and the text ends inside something exactly when it is so written |
| LexerForms.EveryTextIsWritten | internal/pdfcore/stream.go:318-604 | conversely, every text is words with white space between, up to what it may end inside of |
| LexerForms.LexingIsReading | internal/pdfcore/stream.go:318-604 | so the tokens of any text are those of the words it is written in, however it is read as such |
| LexerForms.EndsOutsideIff | internal/pdfcore/stream.go:318-604 | a text ends outside strings, hex strings and images if and only if it is written in whole words |
| LexerForms.StringEndsSo | internal/pdfcore/stream.go:360-388 | a string ends after the one body that a parenthesis closes, or never when there is none |
| LexerJoin.LexOneStays | internal/pdfcore/stream.go:126-162 | a line end and more text after it change no step of lexing unless the text ended inside something |
| LexerJoin.LexingJoins | internal/pdfcore/stream.go:126-162 | the tokens of two joined streams are those of the first and then those of the second (section 7.8.2 of ISO 32000-1) |
| LexerJoin.OpenEndDiffers | internal/pdfcore/stream.go:318-604 | a text that ends inside a string, a hex string or an inline image swallows what is joined to it |
| LexerJoin.JoinsIffEndsOutside | internal/pdfcore/stream.go:126-162 | a text joins to whatever follows if and only if it does not end inside something |
| LexerJoin.PageContentJoins | internal/pdfcore/stream.go:126-162 | the tokens of a page's content are those of its streams in turn, if none but the last ends inside something |
| LexerJoin.OpenStreamMayJoin | internal/pdfcore/stream.go:126-162 | the converse fails for one page: a stream that ends inside an inline image and one that goes on with EI give the tokens of each |
| Tokenizer.SkipString | internal/pdfcore/stream.go:364-388 | the loop over nested parentheses and escapes ends after the one body of matched parentheses that a parenthesis closes, or at the end when there is none |
| Tokenizer.SkipNumber | internal/pdfcore/stream.go:460-481 | the loop over sign, digits and at most one dot ends where the number does |
| Tokenizer.FindImageEnd | internal/pdfcore/stream.go:520-593 | the scan finds the first EI operator with white space before it and white space or nothing after it |
| Tokenizer.TakeImage | internal/pdfcore/stream.go:499-596 | an inline image is its ID, its data without the one delimiter at either end, and its EI, or all the rest |
| Tokenizer.TakeOne | internal/pdfcore/stream.go:327-601 | one turn of the loop is one step of the lexer |
| Tokenizer.TokenizeContentStream | internal/pdfcore/stream.go:318-604 | the loop's tokens are those of the words the text is written in, and every text is so written |
| Formatter.LevelIsGreatestBalance | internal/pdfcore/format.go:135-158 | the floor-clamped indent is the greatest open-minus-close balance of any run of lines that ends there |
| Formatter.BalancedLevel | internal/pdfcore/format.go:135-158 | where nothing closes more than was opened the indent is the plain balance |
| FormatRows.ContentIsFormatted | internal/pdfcore/format.go:9-168 | contents of comments, operations, images and nested blocks, each block opened by q, BT, BMC or BDC and closed by its own operator, give one line each at the depth of the blocks around it, whatever follows |
| FormatRows.WrittenIsFormatted | internal/pdfcore/format.go:9-168 | so do whole contents with operands left over, which are one line more |
| Formatter.Format | internal/pdfcore/format.go:9-168 | the lines concatenate to exactly the tokens; each is a comment, operands and one operator outside any array or dictionary, an inline image, or dangling operands; each is indented by its block level; and however the tokens are written as nested blocks, the lines are those of the blocks |
| Formatter.ImageBlockEnd | internal/pdfcore/format.go:104-120 | an inline image ends past the first EI operator, or with the tokens |
| Utf16.DecodeIsLossless | internal/pdfcore/font.go:1066-1117 | encoding the codepoints read gives the units back, unpaired surrogates included |
| Utf16.EncodeIsReadBack | internal/pdfcore/font.go:1066-1117 | codepoints come back from their units if and only if no two neighbours read as a surrogate pair |
| Utf16.Decode | internal/pdfcore/font.go:1069-1117 | the loop reads those codepoints |
| BfRange.AddedIsExact | internal/pdfcore/font.go:873-882 | adding with carry is exact in base 65536 |
| BfRange.AddedFits | internal/pdfcore/font.go:883-887 | the carry out of the leading unit is zero exactly when the sum still fits |
| BfRange.SequentialIsExact | internal/pdfcore/font.go:843-894 | the text of code k encodes the base's number plus k minus low, in as many units, and a range stops early only where the next number would overflow |
| BfRange.Advance | internal/pdfcore/font.go:873-882 | the in-place carry loop computes the addition, though it stops once nothing is left to carry |
| BfRange.Expand | internal/pdfcore/font.go:864-894 | the loop emits min(high - low + 1, 65536^n - base) mappings |
| BfRange.ParseRange | internal/pdfcore/font.go:806-894 | each form of a range, and each of its errors, in order |
| BfRange.ParseBfrange | internal/pdfcore/font.go:799-897 | ranges are read three tokens at a time up to the first error, and a rest is ignored |
| FlusherSafety.StepKeeps | recentflush.go:47-185 | every step of every thread keeps: no two saves overlap, started is finished plus one while saving, a dirty list is tended to, and a list not dirty is saved or being saved |
| FlusherSafety.RunIsSafe | recentflush.go:47-185 | so does every run with at most one Close |
| FlusherLaws.RecordSetsTimer | recentflush.go:47-103 | a change recorded before Close sets the timer to the end of the hold of the newest open in flight while some open is younger than the longest hold, and else to the delay from now |
| FlusherLaws.EndSetsTimer | recentflush.go:58-77 | the end of an open moves a waiting save only when some open held it until then |
| FlusherLaws.FlushBeginsIff | recentflush.go:151-185 | a flush begins a save if and only if the list is dirty, none is in progress, Close was not called and, unless SaveNow asked, no open in flight is young; the save covers every change so far |
| FlusherLaws.BatchCostsOneSave | recentflush.go:8-18 | a batch of records costs one save: the timer can fire exactly once the delay has passed since the last, its save covers all of them, and nothing is left to save |
| FlusherLaws.EverySaveRebuilds | recentflush.go:151-185 | in every run each finished save has had at most one rebuild or has it queued, and before Close exactly one |
| FlusherSafety.SaveNowIsServed | recentflush.go:105-124 | SaveNow returns before Close only after a save that began after its change has finished |
| FlusherSafety.CloseSavesAll | recentflush.go:126-143 | every change made before Close was called is saved when Close returns |
| FlusherSafety.SleeperIsWoken | recentflush.go:105-185 | a waiting thread always has a save in progress whose end wakes it |
| FlusherSafety.TwoClosesOverlap | recentflush.go:126-143 | with Close called twice two saves can overlap |
| FlusherSafety.OverlapBeginsIff | recentflush.go:126-143 | for any number of Closes, a step makes saves overlap if and only if it takes a Close past its wait with a dirty list while another Close is saving |
| LockSafety.DiffIsBalanced | internal/pdfcore/diff.go:174-200 | a diff of any two documents, equal or swapped, takes both locks in an allowed order and frees them |
| LockSafety.ScriptIsBalanced | internal/pdfcore/inspector.go:20-48 | every kind of call respects the documented lock order and ends holding nothing |
| LockTable.CallsTake | internal/pdfcore/inspector.go:20-48 | every kind of call takes the registry's mutex and exactly the locks listed for it, those of what it builds included |
| LockSafety.RunIsSafe | internal/pdfcore/lazycache.go:18-33 | every interleaving keeps each lock with one holder, and each cache stored at most once and only by the holder of its mutex |
| LockSafety.FollowHolders | internal/pdfcore/inspector.go:20-48 | from any unfinished call, following who holds what it waits for leads to a call that can move |
| LockSafety.NoDeadlock | internal/pdfcore/inspector.go:20-48 | in every reachable state with an unfinished call some call can move |
| LockSafety.CachesGiveOneValue | internal/pdfcore/lazycache.go:12-33 | all readers of a cache are given the same value |
| LockSafety.WorkFalls | internal/pdfcore/lazycache.go:18-33 | each step leaves less to do |
| LockSafety.AllCanFinish | internal/pdfcore/inspector.go:20-48 | from any reachable state all begun calls can run to their end |
| LockSafety.UnorderedDiffsDeadlock | internal/pdfcore/diff.go:184-197 | without the ordering mutex two diffs of swapped documents can wait for each other forever |
| WatcherSafety.SettleMeans | internal/filewatch/watcher.go:289-326 | whether an observation emits depends only on the last two observations, what was last reported and a pending resync |
| WatcherSafety.TwoSettle | internal/filewatch/watcher.go:289-326 | after two identical observations what is reported agrees with them |
| WatcherSafety.StepKeeps | internal/filewatch/watcher.go:177-277 | every step keeps streaks equal to the observations seen, at most one stat per clean tab under way, and events that rest on two observations in a row |
| WatcherSafety.RunIsSafe | internal/filewatch/watcher.go:177-277 | so does every run |
| WatcherSafety.EventsAreOrdered | internal/filewatch/watcher.go:219-252 | events are numbered in strictly rising order, each state was seen twice in a row, and for a clean tab the second stat began after the first came in and after the last recorded status was applied |
| WatcherSafety.NoLostWake | internal/filewatch/watcher.go:137-168 | queued records and focus changes always have a wake-up pending |
| WatcherLaws.OneSightingSendsNothing | internal/filewatch/watcher.go:177-326 | from the moment a tab is fresh, a run with at most one observation of it sends nothing about it |
| WatcherLaws.ResetsAreFresh | internal/filewatch/watcher.go:177-252 | a failed stat, a closed document and a recorded status make a tab fresh, and a closed one is dropped |
| WatcherLaws.RecordIsAnswered | internal/filewatch/watcher.go:152-161 | two observations in a row of one state after a status was recorded send the second, even when it repeats what was recorded |
| WatcherLaws.TickStarts | internal/filewatch/watcher.go:254-277 | a tick drops the tabs that are gone, adds new ones as unchanged since they were opened, and starts exactly one stat for each tab that has none under way |
| WatcherSafety.WatcherConverges | internal/filewatch/watcher.go:177-252 | two identical observations of a tab, nothing resetting or dropping it in between, leave what was last reported in agreement, whatever else happens |
| WatcherSafety.StaleFollowsIff | internal/filewatch/watcher.go:170-277 | when a recorded status is applied to a tab, an event resting only on what was seen before can follow if and only if at least two of its stats are under way |
| WatcherSafety.RewatchedTabReportsStale | internal/filewatch/watcher.go:256-277 | a run in which a tab leaves the watched set and comes back during a stat reports what was seen before a recorded status |

## Left out

What is not modelled:

- Image walk: error rows' texts, image facts (size, filters), sorting of the index, a close during the build, and panics inside pdfcpu. /XObject dictionaries are lists of entries in sorted key order.
- BER: error messages; a tag or length error is a kind without its offset. Lengths of 2^32 octets and more are refused by the decoder, and the theorem on the output assumes it stays below.
- Diff: cancellation by a document close, node paths, displayed summaries and the binary carve-out of single-sided subtrees, and the header comparison of version, info and encryption. The diff tree is a value built bottom-up, not nodes updated in place.
- Reverse references: parent labels, the sort of each list, and the node id strings. Go's map order is modelled as sorted in the index and as arbitrary in the two other searches.
- Page tree: MediaBox, Rotate and Contents readings, row texts, resource errors kept for the image walk, and panics. A lookup that fails resolves to nothing.
- Counting: zlib, LZW and ASCII85 are arbitrary decoders that act on one byte at a time as the bytes before tell them; a decoder whose output hangs on read sizes, as Go's ASCII85 does on corrupt text, is outside the model. Which reader and parameters a filter name gets is given. The size limits of whole-stream decoding (`decodeBounded`) and its order of checks are not modelled.
- Object source: top-level scalars and short arrays over the cap, for which the program promises something else, and the text of the stream placeholder, which is a parameter.
- Content streams: line and column numbers and source line ranges. Characters stand for bytes.
- ToUnicode: the CMap tokenizer, hexadecimal text, bfchar blocks and glyph text. Codes longer than seven bytes, which wrap in 64 bits, are outside the model.
- Saver and watcher: wall-clock time is a clock that moves at will; the program's mutexes are atomic steps, so these two and the locks are machines over values and not classes. Stop, tick intervals and the file-system calls are left out.
- Locks: only lock operations of each call are modelled; what a call computes is not, and the cancel context takes no lock.
- Everything else in the repository: user interface, command line, rendering, signatures beyond BER, number trees, marked content and image decoding, which repeat these patterns in easier form or call libraries.

Where a contract is weaker than one might wish:

- ImageWalker.Walker.Build: as in the code, the incomplete flag may be set for a page that lost nothing; ImageCap.ReusedFlagIff says exactly when a reused walk's flag is wrong, and ImageMemoWalk.MemoPages computes the flag of every page.
- ReverseRefs.ReferencedIffReachable: needs a trailer that gives the catalog a key; ReverseRefs.ReferencedIff does not.
- StageReader.CountStages: the verdict is that on the uncapped filters for clean hexadecimal text; StageCount.CountsAreExactIff and StageCount.VerdictIsSureIff say exactly what holds of other text.
- LexerJoin.PageContentJoins: one way only, for the reason LexerJoin.OpenStreamMayJoin gives; LexerJoin.JoinsIffEndsOutside is the exact statement for one stream.
- SourceTokens.PrintIsRead: for values each of whose texts is one word; a name with a delimiter in it prints as the program prints it, and does not read back.
- DiffTexts.CompareIsFaithful: for texts without blanks; DiffTexts.BlankHidesElements is why.
- PagePlan.PlanIsListed: for trees without trouble rows, whose entries all resolve; the other rows are those of PageLog and PageTree.UnresolvedIsNearest.
- SourceBrackets.SourceIsBalanced: for values whose own texts hold no brackets, since a literal string may hold any.
- WatcherSafety.EventsAreOrdered: freshness is for tabs added with no stat under way; WatcherSafety.StaleFollowsIff is exact for every tab from the moment a record is applied.
- FlusherSafety.RunIsSafe: for runs with at most one Close; FlusherSafety.OverlapBeginsIff is exact for any number.
