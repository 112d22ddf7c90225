# SolrWayback core: a Dafny model

This project models the parts of SolrWayback that do stateful work on Solr results
and on strings. It proves properties of those models.

- **`Streaming`** (`streaming.dfy`) and **`StreamingQuery`** (`streaming_query.dfy`)
  model `SolrGenericStreaming`, the cursor-paged export stream.
  - Query side: the constructors normalise the request. They add the cursor-mark tie
    breaker to the sort, complete the field list and check the time-proximity origo.
  - Stream side: every fetched page goes through adjacent-value deduplication,
    expansion with HTML resources and id uniqueness. It lands in an undelivered
    buffer, which is handed out in batches of at most `pageSize`.
  - The class `GenericStreaming` holds the engine's mutable fields. The class
    `DocIterator` holds the iterator's `list`/`index` state.
- **`SolrClient`** (`solr_client.dfy`) models helpers of `NetarchiveSolrClient`:
  - the nearest-in-time re-ranking of the top rows for a url;
  - `urlQueryJoin`;
  - `mergeInto`/`groupsToDoc`;
  - the index-availability state and `getInstance`;
  - the filter that drops a domain from its own outgoing-link facets;
  - the json facet used by `domainStatisticsForQuery`.
- **`TwitterHtml`** (`twitter_html.dfy`) models the tweet-text helpers of
  `Twitter2Html`. `formatEntities` splices search links into the text in reverse key
  order. `newline2Br`, `imageUrlToHtml`, `makeSolrSearchLink` and `getHeadTitle` are
  also modelled.
- **`WarcMetadata`** (`warc_metadata.dfy`) models `WarcMetadataFromSolr`. Its
  `setId` turns an id into a file-name-safe string.
- **`Util`** holds `Option`/`Result`, the Java exceptions involved, and string
  helpers with Java's semantics (`startsWith`, `endsWith`, `String.replace`,
  `String.join`).

Everything outside the program is passed in as a parameter:

- The Solr index is a function from a cursor mark to a reply. A reply is a response
  (`results`, `numFound`, `nextCursorMark`) or a transport failure.
- The resource lookup behind `getHTMLResources` is a function from a source file and
  an offset to an optional list of documents.
- `normalizeUrl`, `SolrUtils.createPhrase` and `SimpleDateFormat.parse` are function
  parameters. A parsed time is an integer number of milliseconds.
- The rows a query returned are an argument.
- The entity maps and the base URL of `Twitter2Html` are arguments.

Each loop of the modelled operations is a method with a loop here, proved against a
specification function, and the properties are lemmas about that function. The
fetch loop of `nextDocuments` is also written as the recursive ghost function
`Streaming.Loop`, which the method is proved against.

## Model

| member | source | states |
|---|---|---|
| StreamingQuery.NonNullFilters | src/main/java/dk/kb/netarchivesuite/solrwayback/solr/SolrGenericStreaming.java:304-310 | A filter query is added exactly when it is one of the non-null filter queries; none is invented. |
| StreamingQuery.NonNullFiltersAppend | src/main/java/dk/kb/netarchivesuite/solrwayback/solr/SolrGenericStreaming.java:304-310 | Skipping null filters commutes with concatenation, so the filters keep their order and repetitions. |
| StreamingQuery.NonNullFiltersAllPresent | src/main/java/dk/kb/netarchivesuite/solrwayback/solr/SolrGenericStreaming.java:304-310 | Without a null filter, every filter is added at its own position. |
| StreamingQuery.AddFilterQueries | src/main/java/dk/kb/netarchivesuite/solrwayback/solr/SolrGenericStreaming.java:304-310 | The filter loop adds exactly the non-null filters, in order. |
| StreamingQuery.BuildBaseQuery | src/main/java/dk/kb/netarchivesuite/solrwayback/solr/SolrGenericStreaming.java:297-312 | `fl` is the comma join of the fields (absent for a null list). Sort and rows are as given, no cursor mark is set. `q` is the query and the filters are exactly the non-null ones. |
| StreamingQuery.SplitFieldList | src/main/java/dk/kb/netarchivesuite/solrwayback/solr/SolrGenericStreaming.java:223 | A string without a comma is returned whole. No piece contains a comma, and with a comma the last piece is non-empty (trailing empty pieces are dropped). |
| StreamingQuery.SplitJoin | src/main/java/dk/kb/netarchivesuite/solrwayback/solr/SolrGenericStreaming.java:223 | Splitting a comma-joined list of plain field names on `", *"` gives back exactly those names. |
| StreamingQuery.PiecesOfJoin | src/main/java/dk/kb/netarchivesuite/solrwayback/solr/SolrGenericStreaming.java:223 | Before trailing empties are dropped, the pieces of such a join are the names. |
| StreamingQuery.CommaInJoin | src/main/java/dk/kb/netarchivesuite/solrwayback/solr/SolrGenericStreaming.java:223 | A join of comma-free names contains a comma iff it joins at least two names. |
| StreamingQuery.NormaliseSort | src/main/java/dk/kb/netarchivesuite/solrwayback/solr/SolrGenericStreaming.java:233-236 | The result always ends in `id asc` or `id desc` and starts with the given sort. It is unchanged iff the sort already ends that way; otherwise `", id asc"` is appended. |
| StreamingQuery.NormaliseSortIdempotent | src/main/java/dk/kb/netarchivesuite/solrwayback/solr/SolrGenericStreaming.java:233-236 | Normalising a normalised sort changes nothing. |
| StreamingQuery.Normalise | src/main/java/dk/kb/netarchivesuite/solrwayback/solr/SolrGenericStreaming.java:205-250 | The advanced constructor fails with NullPointerException iff `fl` or `rows` is missing. Otherwise: `pageSize` is `rows`; the cursor defaults to `*`; the sort is the normalised sort (default `score desc, id asc`); `maxUnique` defaults to 5000000. The field set is the split `fl` plus the expansion fields, `id` (expansion and uniqueness only) and the dedup field, and nothing else. |
| StreamingQuery.SimpleSettings | src/main/java/dk/kb/netarchivesuite/solrwayback/solr/SolrGenericStreaming.java:148-151 | Succeeds iff a field list is given; page size 1000, default sort, no expansion, no uniqueness, no dedup field. |
| StreamingQuery.PagedSettings | src/main/java/dk/kb/netarchivesuite/solrwayback/solr/SolrGenericStreaming.java:168-173 | Succeeds iff a field list is given; the given page size, default sort, `maxUnique` 5000000, no dedup field. |
| StreamingQuery.FieldsAreExported | src/main/java/dk/kb/netarchivesuite/solrwayback/solr/SolrGenericStreaming.java:168-173 | Every requested field name ends up in the stream's field set. |
| StreamingQuery.Origo | src/main/java/dk/kb/netarchivesuite/solrwayback/solr/SolrGenericStreaming.java:115-124 | `newest` is `9999-12-31T23:59:59Z` and `oldest` is `0001-01-01T00:00:01Z`. Any other value is kept iff it matches the `ISO_TIME` pattern, else IllegalArgumentException. Null gives NullPointerException. |
| StreamingQuery.TimeProximity | src/main/java/dk/kb/netarchivesuite/solrwayback/solr/SolrGenericStreaming.java:106-136 | The origo error comes first, then NullPointerException for a null dedup field, then success iff there is a field list. The sort is `"<field> asc, abs(sub(ms(<origo>), crawl_date)) asc, id asc"`, page size is 1000 and the dedup field is fetched. |
| StreamingQuery.ProximitySortNeedsTieBreaker | src/main/java/dk/kb/netarchivesuite/solrwayback/solr/SolrGenericStreaming.java:133-134 | The proximity sort never ends in an id clause, so the constructor always appends `", id asc"`. |
| StreamingQuery.IsoTimeRejectsSeconds | src/main/java/dk/kb/netarchivesuite/solrwayback/solr/SolrGenericStreaming.java:120-137 | The pattern rejects `2014-01-03T11:56:58Z`, the form the comments use, so timeProximity throws IllegalArgumentException for it. |
| StreamingQuery.IsoTimeAcceptsMinutesAndDigits | src/main/java/dk/kb/netarchivesuite/solrwayback/solr/SolrGenericStreaming.java:137 | The pattern accepts `...T11:56Z` and `...T11:5658Z` (three optional digits, optional dot). |
| StreamingQuery.DedupFieldNotPrimarySort | src/main/java/dk/kb/netarchivesuite/solrwayback/solr/SolrGenericStreaming.java:237-243 | For every query with fl and rows and every dedup field no longer than the given sort: when that sort does not start with the field, the final sort does not either. |
| StreamingQuery.IdNotAddedWithoutExpansion | src/main/java/dk/kb/netarchivesuite/solrwayback/solr/SolrGenericStreaming.java:229-231 | For every query with fl and rows, with uniqueness but no expansion, `id` is in the field set only when the query or the dedup field names it. |
| StreamingQuery.MissingFlOrRowsFails | src/main/java/dk/kb/netarchivesuite/solrwayback/solr/SolrGenericStreaming.java:214-215 | A query without `fl` or `rows` makes the constructor throw NullPointerException. |
| Streaming.Dedup | src/main/java/dk/kb/netarchivesuite/solrwayback/solr/SolrGenericStreaming.java:425-438 | Kept count plus removed count equals the number of input documents. |
| Streaming.DedupKeepsOrder | src/main/java/dk/kb/netarchivesuite/solrwayback/solr/SolrGenericStreaming.java:425-438 | The kept documents are a subsequence of the input, in order. |
| Streaming.DedupAdjacent | src/main/java/dk/kb/netarchivesuite/solrwayback/solr/SolrGenericStreaming.java:427-433 | Each kept document's value differs from the previously kept one's (or from the remembered value, for the first). The remembered value afterwards is the last kept document's. |
| Streaming.DedupAppend | src/main/java/dk/kb/netarchivesuite/solrwayback/solr/SolrGenericStreaming.java:425-438 | Deduplicating two pages in turn, carrying the remembered value, equals deduplicating their concatenation. |
| Streaming.DedupSnoc | src/main/java/dk/kb/netarchivesuite/solrwayback/solr/SolrGenericStreaming.java:425-438 | A document is dropped iff a value is remembered after the documents before it and its own value equals that value; the remembered value is the last kept document's. |
| Streaming.DedupIdempotent | src/main/java/dk/kb/netarchivesuite/solrwayback/solr/SolrGenericStreaming.java:425-438 | Deduplicating the kept documents again removes nothing. |
| Streaming.AcceptedChainKept | src/main/java/dk/kb/netarchivesuite/solrwayback/solr/SolrGenericStreaming.java:427-433 | A list whose neighbours already differ is kept whole. |
| Streaming.Expand | src/main/java/dk/kb/netarchivesuite/solrwayback/solr/SolrGenericStreaming.java:375-382 | The list only grows, and the original documents remain an unchanged prefix. |
| Streaming.HtmlResources | src/main/java/dk/kb/netarchivesuite/solrwayback/solr/SolrGenericStreaming.java:384-396 | A page without a source file path or offset, or whose lookup fails, contributes no documents; otherwise the lookup's documents. |
| Streaming.ExpandNothingFound | src/main/java/dk/kb/netarchivesuite/solrwayback/solr/SolrGenericStreaming.java:375-396 | When no html document yields resources (including failed lookups), expansion leaves the list unchanged. |
| Streaming.ExpansionProvenance | src/main/java/dk/kb/netarchivesuite/solrwayback/solr/SolrGenericStreaming.java:375-382 | Every added document is a resource of one of the original `html` documents. |
| Streaming.ExpansionComplete | src/main/java/dk/kb/netarchivesuite/solrwayback/solr/SolrGenericStreaming.java:157-158 | Conversely, every resource of every original `html` document is added. |
| Streaming.ExpansionAppend | src/main/java/dk/kb/netarchivesuite/solrwayback/solr/SolrGenericStreaming.java:375-382 | Resources are appended in page order: expanding a concatenation of pages is the first part's resources followed by the second part's. |
| Streaming.Uniq | src/main/java/dk/kb/netarchivesuite/solrwayback/solr/SolrGenericStreaming.java:406-420 | On a complete pass, kept plus removed equals the input size; the tracker only grows. |
| Streaming.UniqComplete | src/main/java/dk/kb/netarchivesuite/solrwayback/solr/SolrGenericStreaming.java:409-444 | The pass completes iff every document has an id (a missing id throws). The tracker then gains exactly the input's ids. |
| Streaming.UniqKeptFresh | src/main/java/dk/kb/netarchivesuite/solrwayback/solr/SolrGenericStreaming.java:406-420 | Kept documents have ids that were not tracked before and are pairwise distinct, and afterwards every kept id is tracked. |
| Streaming.UniqDistinct | src/main/java/dk/kb/netarchivesuite/solrwayback/solr/SolrGenericStreaming.java:406-420 | The two lemmas above combined. |
| Streaming.UniqAppend | src/main/java/dk/kb/netarchivesuite/solrwayback/solr/SolrGenericStreaming.java:406-420 | The tracker carries uniqueness across pages: two passes equal one pass over the concatenation. |
| Streaming.FirstOccurrenceWins | src/main/java/dk/kb/netarchivesuite/solrwayback/solr/SolrGenericStreaming.java:409-410 | A document is kept iff its id was neither tracked before nor carried by an earlier document. |
| Streaming.MaxUniqueNotEnforced | src/main/java/dk/kb/netarchivesuite/solrwayback/solr/SolrGenericStreaming.java:406-420 | Two distinct ids are both kept and tracked whatever the ceiling; the tracker is never compared with `maxUnique`. |
| Streaming.PageSplit | src/main/java/dk/kb/netarchivesuite/solrwayback/solr/SolrGenericStreaming.java:358-373 | A null or short buffer is returned whole and the buffer becomes null. Otherwise batch ++ rest equals the buffer and the batch has exactly `pageSize` documents. A negative page size with a non-null buffer fails with IllegalArgumentException. |
| Streaming.Step | src/main/java/dk/kb/netarchivesuite/solrwayback/solr/SolrGenericStreaming.java:320-349 | A further round happens only after a reply that does not end the stream, and it moves the cursor to the reply's next cursor. Null is returned only after a reply that ends the stream, with the cursor moved and the stream finished. A batch comes from a non-empty buffer, and batch ++ rest is that buffer. |
| Streaming.NoMoreIffFinished | src/main/java/dk/kb/netarchivesuite/solrwayback/solr/SolrGenericStreaming.java:314-349 | With the documented guard and the corrected end test, null is returned iff the stream has finished. A finished stream stays finished and unchanged. Finishing takes a reply with `numFound == 0` or an empty page. |
| Streaming.BatchSize | src/main/java/dk/kb/netarchivesuite/solrwayback/solr/SolrGenericStreaming.java:314-318 | Every returned batch holds between 1 and `pageSize` documents. |
| Streaming.NextDocumentsAsWritten | src/main/java/dk/kb/netarchivesuite/solrwayback/solr/SolrGenericStreaming.java:320-351 | As written, a call on a stream that has not finished returns null and changes nothing. |
| Streaming.AsWrittenFreshStreamIsEmpty | src/main/java/dk/kb/netarchivesuite/solrwayback/solr/SolrGenericStreaming.java:320-351 | With the guard as written, the first call on a fresh stream returns null without querying, and nothing changes. No hypothesis on the index is needed. |
| Streaming.DocumentedLoopDelivers | src/main/java/dk/kb/netarchivesuite/solrwayback/solr/SolrGenericStreaming.java:314-349 | With the documented guard, a fresh stream whose first page holds at least one and at most `pageSize` documents hands out that page. |
| Streaming.SolrIndexHasNoRankAsWritten | src/main/java/dk/kb/netarchivesuite/solrwayback/solr/SolrGenericStreaming.java:328-334 | With the end test as written, no ranking of cursors terminates the loop for a Solr index with a hit: its reply past the last page repeats the cursor and reports the total. |
| Streaming.AsWrittenEndSpins | src/main/java/dk/kb/netarchivesuite/solrwayback/solr/SolrGenericStreaming.java:320-349 | With the end test as written, a stream at that reply queries the same cursor again and again: one round leaves a state that the next round reproduces. |
| Streaming.SolrIndexRanked | src/main/java/dk/kb/netarchivesuite/solrwayback/solr/SolrGenericStreaming.java:328-334 | With the corrected end test, ranking a cursor by the documents after it terminates the loop for every Solr index. |
| Streaming.SolrPageDelivered | src/main/java/dk/kb/netarchivesuite/solrwayback/solr/SolrGenericStreaming.java:314-349 | On a Solr index, without pipeline stages, each call of the corrected loop hands out the next page and moves the cursor past it; a call at the end returns null and finishes the stream. |
| Streaming.GenericStreaming.constructor | src/main/java/dk/kb/netarchivesuite/solrwayback/solr/SolrGenericStreaming.java:205-221 | A new stream starts at the configured cursor with no buffer, not finished, no duplicates removed, nothing remembered and an empty tracker. |
| Streaming.DedupPage | src/main/java/dk/kb/netarchivesuite/solrwayback/solr/SolrGenericStreaming.java:427-436 | The loop over one page keeps, remembers and counts exactly what `Dedup` does from the remembered value. |
| Streaming.GenericStreaming.StreamDeduplicate | src/main/java/dk/kb/netarchivesuite/solrwayback/solr/SolrGenericStreaming.java:425-438 | Buffer, remembered value and removed count become those of `Dedup`; nothing else changes. |
| Streaming.GenericStreaming.ExpandResources | src/main/java/dk/kb/netarchivesuite/solrwayback/solr/SolrGenericStreaming.java:375-382 | The buffer becomes its expansion over the first `initialSize` documents; nothing else changes. |
| Streaming.UniqPage | src/main/java/dk/kb/netarchivesuite/solrwayback/solr/SolrGenericStreaming.java:406-420 | The loop over one page keeps, tracks, counts and stops exactly as `Uniq` does from the tracked ids. |
| Streaming.GenericStreaming.RemoveDuplicates | src/main/java/dk/kb/netarchivesuite/solrwayback/solr/SolrGenericStreaming.java:406-420 | Buffer, tracker and removed count become those of `Uniq`. On a missing id the buffer is left as it was, but the tracker and counter keep the updates made so far. |
| Streaming.GenericStreaming.NextPageUndelivered | src/main/java/dk/kb/netarchivesuite/solrwayback/solr/SolrGenericStreaming.java:358-373 | Returns what `PageSplit` gives and leaves its rest in the buffer. |
| Streaming.GenericStreaming.NextDocuments | src/main/java/dk/kb/netarchivesuite/solrwayback/solr/SolrGenericStreaming.java:319-352 | The loop's result and new state are those of the specification `NextDocumentsSpec`: the documented guard, with the stream ending on `numFound == 0` or an empty page. |
| Streaming.DocIterator.constructor | src/main/java/dk/kb/netarchivesuite/solrwayback/solr/SolrGenericStreaming.java:264-267 | The iterator starts with a null list at index 0, having handed out nothing. |
| Streaming.HasNextSpec | src/main/java/dk/kb/netarchivesuite/solrwayback/solr/SolrGenericStreaming.java:270-285 | When it answers, the answer is whether a list with a next element is held, and the index then lies inside that list. |
| Streaming.HasNextCases | src/main/java/dk/kb/netarchivesuite/solrwayback/solr/SolrGenericStreaming.java:270-285 | A new batch is requested only when the list is used up and the stream is not finished; otherwise the stream, the list and the index are untouched. A failure becomes RuntimeException and leaves list and index as they were. A fetched batch is received whole and becomes the list unless it is empty. Once finished and used up the answer is false. |
| Streaming.DocIterator.HasNext | src/main/java/dk/kb/netarchivesuite/solrwayback/solr/SolrGenericStreaming.java:270-285 | The answer, the list, index and received documents, and the stream state are those `HasNextSpec` gives for the old ones; nothing is handed out and the delivered/received invariant is kept. |
| Streaming.NextCases | src/main/java/dk/kb/netarchivesuite/solrwayback/solr/SolrGenericStreaming.java:288-293 | Returns the element at the current index while the list has one, without touching the stream. Otherwise returns the first document of the batch hasNext fetches, RuntimeException when that fetch fails, and NoSuchElementException when the stream has finished or the fetch brings nothing. |
| Streaming.DocIterator.Next | src/main/java/dk/kb/netarchivesuite/solrwayback/solr/SolrGenericStreaming.java:288-293 | The result, the cursor and the stream state are those `NextSpec` gives for the old ones; each returned document is added to the delivered ones (nothing on an exception) and the invariant that received documents are delivered once, in order, is kept. |
| SolrClient.Rerank | src/main/java/dk/kb/netarchivesuite/solrwayback/solr/NetarchiveSolrClient.java:812-859 | The chosen index is a row or 0 and the best distance never exceeds Long.MAX_VALUE. The only failure is a ParseException. |
| SolrClient.RerankFails | src/main/java/dk/kb/netarchivesuite/solrwayback/solr/NetarchiveSolrClient.java:853-854 | The re-ranking fails iff some unskipped row's crawl date does not parse. |
| SolrClient.RerankFailureSticks | src/main/java/dk/kb/netarchivesuite/solrwayback/solr/NetarchiveSolrClient.java:853-854 | Once the rows up to some point fail to parse, the re-ranking of all rows fails: the first failure ends the loop. |
| SolrClient.RerankPicksNearest | src/main/java/dk/kb/netarchivesuite/solrwayback/solr/NetarchiveSolrClient.java:814-865 | The chosen row is unskipped and at minimal distance from the requested time. Every earlier unskipped row is strictly farther, so ties go to the earlier row. With no unskipped row within Long.MAX_VALUE, row 0 is chosen. |
| SolrClient.AllSkippedGivesFirstRow | src/main/java/dk/kb/netarchivesuite/solrwayback/solr/NetarchiveSolrClient.java:814-865 | When every row is skipped, row 0 is still returned. |
| SolrClient.FindClosestHarvestTimeForUrl | src/main/java/dk/kb/netarchivesuite/solrwayback/solr/NetarchiveSolrClient.java:773-866 | A null url or timestamp gives IllegalArgumentException, and no rows gives null. An unparsable timestamp gives ParseException. Otherwise the loop returns the row the re-ranking chose, skipping other protocols, rows without the requested trailing slash, and redirects back to the url. |
| SolrClient.QueryUrls | src/main/java/dk/kb/netarchivesuite/solrwayback/solr/NetarchiveSolrClient.java:756-759 | The queried urls are no more than the given urls. |
| SolrClient.QueryUrlsMembers | src/main/java/dk/kb/netarchivesuite/solrwayback/solr/NetarchiveSolrClient.java:756-759 | A url is queried iff it is given and does not start with `data:`. |
| SolrClient.QueryUrlsAppend | src/main/java/dk/kb/netarchivesuite/solrwayback/solr/NetarchiveSolrClient.java:756-766 | The filter distributes over concatenation, so input order is kept. |
| SolrClient.UrlQueryJoin | src/main/java/dk/kb/netarchivesuite/solrwayback/solr/NetarchiveSolrClient.java:752-768 | The result is `field + ":(" + phrases joined by " " + operator + " " + ")"`, over the non-`data:` urls in input order. |
| SolrClient.OnlyDataUrlsGiveEmptyGroup | src/main/java/dk/kb/netarchivesuite/solrwayback/solr/NetarchiveSolrClient.java:752-768 | With only `data:` urls no url is queried, and the query `urlQueryJoin` builds is `field:()`. |
| SolrClient.MaxScore | src/main/java/dk/kb/netarchivesuite/solrwayback/solr/NetarchiveSolrClient.java:721-723 | The merged maxScore is present iff one of the two is, and is one of them. It is at least each present score, i.e. their maximum. |
| SolrClient.Merge | src/main/java/dk/kb/netarchivesuite/solrwayback/solr/NetarchiveSolrClient.java:716-725 | A null list leaves the list as it was. Otherwise the original documents stay a prefix and the added documents follow them, numFound is the sum and maxScore is combined by `MaxScore`. |
| SolrClient.MergeMonoid | src/main/java/dk/kb/netarchivesuite/solrwayback/solr/NetarchiveSolrClient.java:716-725 | Merging is associative, and a new empty list is neutral on both sides. |
| SolrClient.MergeInto | src/main/java/dk/kb/netarchivesuite/solrwayback/solr/NetarchiveSolrClient.java:716-725 | A null list changes nothing. Otherwise the documents are appended, numFound is summed and maxScore is combined. |
| SolrClient.DocumentList.constructor | src/main/java/dk/kb/netarchivesuite/solrwayback/solr/NetarchiveSolrClient.java:728 | A new list has no documents, numFound 0 and no maxScore. |
| SolrClient.MergeAllFlattens | src/main/java/dk/kb/netarchivesuite/solrwayback/solr/NetarchiveSolrClient.java:727-738 | Merging lists into an empty list concatenates their documents in order and sums their numFound; null lists are skipped. |
| SolrClient.GroupsToDoc | src/main/java/dk/kb/netarchivesuite/solrwayback/solr/NetarchiveSolrClient.java:727-738 | The result is every group's list merged in command-then-group order into a new list. |
| SolrClient.NoGroupsGiveEmptyList | src/main/java/dk/kb/netarchivesuite/solrwayback/solr/NetarchiveSolrClient.java:729-731 | A null response, group response or command list, or no commands, gives the empty list. |
| SolrClient.LatestDecisiveReportWins | src/main/java/dk/kb/netarchivesuite/solrwayback/solr/NetarchiveSolrClient.java:101-120 | After any sequence of status reports, the availability is the one the latest `available`/`unavailable` report set. With no such report it is unchanged. |
| SolrClient.NoDecisiveReportKeeps | src/main/java/dk/kb/netarchivesuite/solrwayback/solr/NetarchiveSolrClient.java:101-120 | Reports that are neither `available` nor `unavailable` leave the availability as it was. |
| SolrClient.LastDecisiveReportSets | src/main/java/dk/kb/netarchivesuite/solrwayback/solr/NetarchiveSolrClient.java:101-120 | When report k is the last `available`/`unavailable` report, the availability afterwards is the one report k set. |
| SolrClient.AvailabilitySnoc | src/main/java/dk/kb/netarchivesuite/solrwayback/solr/NetarchiveSolrClient.java:101-120 | One more report acts on the availability the earlier reports gave. |
| SolrClient.NetarchiveSolrClient.constructor | src/main/java/dk/kb/netarchivesuite/solrwayback/solr/NetarchiveSolrClient.java:53-56 | A new client has received no status report and its availability is undetermined (null). |
| SolrClient.NetarchiveSolrClient.IndexStatusChanged | src/main/java/dk/kb/netarchivesuite/solrwayback/solr/NetarchiveSolrClient.java:101-120 | `changed` clears the cache iff the client caches. `available`/`unavailable` set the availability to true/false. `undetermined` changes nothing. The report is recorded, and the availability stays the one the recorded reports give. |
| SolrClient.NetarchiveSolrClient.IsSolrAvailable | src/main/java/dk/kb/netarchivesuite/solrwayback/solr/NetarchiveSolrClient.java:122-129 | The availability the reports received so far give: null until an `available` or `unavailable` report arrives (so always null without an index watcher), then the latest such report. |
| SolrClient.SolrClientRegistry.constructor | src/main/java/dk/kb/netarchivesuite/solrwayback/solr/NetarchiveSolrClient.java:49 | Before initialisation there is no instance. |
| SolrClient.SolrClientRegistry.Initialize | src/main/java/dk/kb/netarchivesuite/solrwayback/solr/NetarchiveSolrClient.java:64-91 | Initialisation installs a fresh client, caching as configured, with an empty cache and undetermined availability. |
| SolrClient.SolrClientRegistry.GetInstance | src/main/java/dk/kb/netarchivesuite/solrwayback/solr/NetarchiveSolrClient.java:94-99 | IllegalArgumentException iff there is no instance; otherwise the instance. |
| SolrClient.OtherDomainsMembers | src/main/java/dk/kb/netarchivesuite/solrwayback/solr/NetarchiveSolrClient.java:197-204 | An entry is kept iff its name differs from the domain ignoring case. Name and count are copied unchanged and nothing is added. |
| SolrClient.OtherDomainsAppend | src/main/java/dk/kb/netarchivesuite/solrwayback/solr/NetarchiveSolrClient.java:197-204 | The filter distributes over concatenation, so the rest keep their order. |
| SolrClient.OtherDomainsCount | src/main/java/dk/kb/netarchivesuite/solrwayback/solr/NetarchiveSolrClient.java:197-204 | Every reported entry is either kept or names the domain: kept plus own entries equals the number reported. |
| SolrClient.FilterOwnDomain | src/main/java/dk/kb/netarchivesuite/solrwayback/solr/NetarchiveSolrClient.java:197-204 | The loop yields exactly the entries of the other domains, in order. |
| SolrClient.FacetLimitLeavesWanted | src/main/java/dk/kb/netarchivesuite/solrwayback/solr/NetarchiveSolrClient.java:188-204 | Why one more facet entry is requested: a full page of `facetLimit + 1` entries that names the domain once still leaves exactly `facetLimit` other domains. |
| SolrClient.Gap | src/main/java/dk/kb/netarchivesuite/solrwayback/solr/NetarchiveSolrClient.java:1254-1268 | `MONTH` gives `'+1MONTH'`, `WEEK` gives `'+7DAYS'` and `DAY` gives `'+1DAY'`, each an iff. Any other scale (`YEAR` included) gives `'+1YEAR'`. |
| SolrClient.DomainStatisticsFacet | src/main/java/dk/kb/netarchivesuite/solrwayback/solr/NetarchiveSolrClient.java:1244-1270 | A null or empty scale gives the yearly facet over `crawl_year`, from the archive start year to the year after the current one, with gap 1. Any other scale gives the date facet over `crawl_date`, from the start date's midnight UTC to the end date's, with that scale's gap; a null date prints as `null`. |
| TwitterHtml.MakeSolrSearchLink | src/main/java/dk/kb/netarchivesuite/solrwayback/parsers/Twitter2Html.java:271-274 | The link starts with `base + "search?query="` and ends with the Twitter-tweet type filter. |
| TwitterHtml.SearchLinkRecoverable | src/main/java/dk/kb/netarchivesuite/solrwayback/parsers/Twitter2Html.java:271-274 | The link starts with `base + "search?query="`, ends with the Twitter-tweet type filter, and the search string can be read back from between them. |
| TwitterHtml.GetHeadTitle | src/main/java/dk/kb/netarchivesuite/solrwayback/parsers/Twitter2Html.java:183-186 | The title starts with `Retweet by: ` iff it is a retweet, else with `Tweet by: `, and ends with the user name. |
| TwitterHtml.Newline2Br | src/main/java/dk/kb/netarchivesuite/solrwayback/parsers/Twitter2Html.java:229-234 | Null gives `""`; the result never contains a newline. |
| TwitterHtml.Newline2BrIsMap | src/main/java/dk/kb/netarchivesuite/solrwayback/parsers/Twitter2Html.java:233 | Replacing `"\n"` by `"<br>"` is the character-wise map that turns each newline into `<br>` and keeps every other character. |
| TwitterHtml.BrMapHasNoNewline | src/main/java/dk/kb/netarchivesuite/solrwayback/parsers/Twitter2Html.java:233 | That map leaves no newline. |
| TwitterHtml.Newline2BrLength | src/main/java/dk/kb/netarchivesuite/solrwayback/parsers/Twitter2Html.java:229-234 | Each newline adds three characters; text without newlines is returned unchanged. |
| TwitterHtml.ImagesHtmlAppend | src/main/java/dk/kb/netarchivesuite/solrwayback/parsers/Twitter2Html.java:261-269 | The html of two image lists is the concatenation of their html. |
| TwitterHtml.ImageUrlToHtml | src/main/java/dk/kb/netarchivesuite/solrwayback/parsers/Twitter2Html.java:261-269 | The loop yields one `<img src='url'/>` line per image in order; no images give `""`. |
| TwitterHtml.Put | src/main/java/dk/kb/netarchivesuite/solrwayback/parsers/Twitter2Html.java:117-119 | Putting into an insertion-ordered map keeps its size (existing key) or appends the entry. |
| TwitterHtml.PutExisting | src/main/java/dk/kb/netarchivesuite/solrwayback/parsers/Twitter2Html.java:117-119 | An existing key stays where its first entry is, and that entry takes the new value; every other entry keeps its place. |
| TwitterHtml.PutFresh | src/main/java/dk/kb/netarchivesuite/solrwayback/parsers/Twitter2Html.java:117-119 | A key not yet in the map is appended at the end. |
| TwitterHtml.PutAllFresh | src/main/java/dk/kb/netarchivesuite/solrwayback/parsers/Twitter2Html.java:117-119 | Putting entries with new, distinct keys appends them in order. |
| TwitterHtml.MergedOrder | src/main/java/dk/kb/netarchivesuite/solrwayback/parsers/Twitter2Html.java:117-123 | With distinct spans, the merged map is the hashtags followed by the mentions, and the reversed keys are the reversed mentions followed by the reversed hashtags. |
| TwitterHtml.ReverseAppend | src/main/java/dk/kb/netarchivesuite/solrwayback/parsers/Twitter2Html.java:122-123 | Reversing a concatenation reverses and swaps the parts. |
| TwitterHtml.TagWithLinkShape | src/main/java/dk/kb/netarchivesuite/solrwayback/parsers/Twitter2Html.java:129-131 | The replacement starts with `<span><a href='` and the search link head, and ends with the type filter, `'>`, the tag and `</a></span>`. |
| TwitterHtml.SpliceAll | src/main/java/dk/kb/netarchivesuite/solrwayback/parsers/Twitter2Html.java:124-137 | At most as many entities are applied as given. |
| TwitterHtml.SpliceStopsAtFailure | src/main/java/dk/kb/netarchivesuite/solrwayback/parsers/Twitter2Html.java:124-137 | Splicing stops exactly at the first entity whose replacement would throw. The text returned is the result of the entities before it. |
| TwitterHtml.FormatEntities | src/main/java/dk/kb/netarchivesuite/solrwayback/parsers/Twitter2Html.java:113-138 | The loop over the reversed keys yields the specification's text: splicing stops at the first failure and keeps the text built so far. |
| TwitterHtml.FormatTweetMainText | src/main/java/dk/kb/netarchivesuite/solrwayback/parsers/Twitter2Html.java:107-111 | The result is `newline2Br(formatEntities(text))`, with no newline left. |
| TwitterHtml.SplicePrefix | src/main/java/dk/kb/netarchivesuite/solrwayback/parsers/Twitter2Html.java:124-133 | Splicing entities that lie at descending positions inside a prefix leaves any appended text untouched, and all of them are applied. |
| TwitterHtml.OrderedReverseDescending | src/main/java/dk/kb/netarchivesuite/solrwayback/parsers/Twitter2Html.java:122-123 | Ascending non-overlapping spans, reversed, are descending. |
| TwitterHtml.MentionBeforeHashtagSplicedFirst | src/main/java/dk/kb/netarchivesuite/solrwayback/parsers/Twitter2Html.java:121-132 | With a mention before a hashtag, the reversed keys splice the mention first: the order is not from the end of the text to its start. |
| TwitterHtml.MentionBeforeHashtagCorruptsText | src/main/java/dk/kb/netarchivesuite/solrwayback/parsers/Twitter2Html.java:113-132 | On "@a#b" the output differs from substituting each entity in place: the hashtag is spliced into the mention's link. |
| TwitterHtml.BuildSnoc | src/main/java/dk/kb/netarchivesuite/solrwayback/parsers/Twitter2Html.java:124-133 | The left-to-right construction of one more, later entity replaces only its span at the end. |
| TwitterHtml.ReverseSpliceIsBuild | src/main/java/dk/kb/netarchivesuite/solrwayback/parsers/Twitter2Html.java:122-133 | For ascending non-overlapping spans, splicing in reverse applies every entity. The result equals copying the text between spans and substituting each span's link, left to right. |
| TwitterHtml.FormatEntitiesOrdered | src/main/java/dk/kb/netarchivesuite/solrwayback/parsers/Twitter2Html.java:113-138 | With distinct, ascending, non-overlapping spans, formatEntities replaces each span by its link and leaves the text outside the spans unchanged. |
| WarcMetadata.SanitiseId | src/main/java/dk/kb/netarchivesuite/solrwayback/service/dto/WarcMetadataFromSolr.java:40-43 | The stored id has no `/` and no `==`. |
| WarcMetadata.RemovedHasNoDoubleEquals | src/main/java/dk/kb/netarchivesuite/solrwayback/service/dto/WarcMetadataFromSolr.java:41 | Removing `==` left to right leaves no `==`. |
| WarcMetadata.SlashToUnderscoreAt | src/main/java/dk/kb/netarchivesuite/solrwayback/service/dto/WarcMetadataFromSolr.java:42 | The slash replacement is character by character: `/` becomes `_`, everything else stays. |
| WarcMetadata.RunOfEquals | src/main/java/dk/kb/netarchivesuite/solrwayback/service/dto/WarcMetadataFromSolr.java:41 | A run of k `=` keeps k mod 2 of them. |
| WarcMetadata.CleanIdUnchanged | src/main/java/dk/kb/netarchivesuite/solrwayback/service/dto/WarcMetadataFromSolr.java:40-43 | An id without `/` and `==` is stored unchanged. |
| WarcMetadata.SanitiseIdIdempotent | src/main/java/dk/kb/netarchivesuite/solrwayback/service/dto/WarcMetadataFromSolr.java:36-43 | `setId(getId())` stores the same id again. |
| WarcMetadata.WarcMetadataFromSolr.constructor | src/main/java/dk/kb/netarchivesuite/solrwayback/service/dto/WarcMetadataFromSolr.java:58-59 | Every field is null. |
| WarcMetadata.WarcMetadataFromSolr.WithExtensionAndHash | src/main/java/dk/kb/netarchivesuite/solrwayback/service/dto/WarcMetadataFromSolr.java:53-56 | Extension and hash are stored; id and mimetype are null. |
| WarcMetadata.WarcMetadataFromSolr.SetFileExtension | src/main/java/dk/kb/netarchivesuite/solrwayback/service/dto/WarcMetadataFromSolr.java:20-26 | The getter returns what was set; the other fields are unchanged. |
| WarcMetadata.WarcMetadataFromSolr.SetHash | src/main/java/dk/kb/netarchivesuite/solrwayback/service/dto/WarcMetadataFromSolr.java:28-34 | The getter returns what was set; the other fields are unchanged. |
| WarcMetadata.WarcMetadataFromSolr.SetMimetype | src/main/java/dk/kb/netarchivesuite/solrwayback/service/dto/WarcMetadataFromSolr.java:45-51 | The getter returns what was set; the other fields are unchanged. |
| WarcMetadata.WarcMetadataFromSolr.SetId | src/main/java/dk/kb/netarchivesuite/solrwayback/service/dto/WarcMetadataFromSolr.java:36-43 | The getter returns the sanitised id, without `/` or `==`; the other fields are unchanged. |

## Findings

| source | as written | input that shows it | evidently intended | confidence | as-written member | corrected member |
|---|---|---|---|---|---|---|
| src/main/java/dk/kb/netarchivesuite/solrwayback/solr/SolrGenericStreaming.java:320 | `nextDocuments` loops `while (hasFinished)`. A fresh stream is not finished, so the body never runs and the first call returns null. | Any fresh stream, e.g. a backend whose first page holds one document with `numFound` 1. | `while (!hasFinished)`, as the doc comment at :314-318 and the loop comment at :349 describe: at least 1 and at most `pageSize` documents, or null once there are none. | not executed | Streaming.NextDocumentsAsWritten, with Streaming.AsWrittenFreshStreamIsEmpty | Streaming.GenericStreaming.NextDocuments (against Streaming.NextDocumentsSpec), with Streaming.DocumentedLoopDelivers, Streaming.NoMoreIffFinished and Streaming.BatchSize |
| src/main/java/dk/kb/netarchivesuite/solrwayback/solr/SolrGenericStreaming.java:331 | The only end test is `getNumFound() == 0L`. Solr reports the total number of hits on every page of a cursor query; past the last page it returns an empty page whose next cursor repeats the cursor. With the documented guard the loop would then store the empty page and query the same cursor forever. | `Streaming.SolrIndex(docs, rows)` with at least one document: the reply at the cursor past the last page is `Response([], |docs|, cursor)`. | The stream also ends on an empty page, the end of a cursor query in Solr. | not executed | Streaming.SolrIndexHasNoRankAsWritten (no cursor ranking exists under the test as written), with Streaming.AsWrittenEndSpins | Streaming.GenericStreaming.NextDocuments (end test `Streaming.EmptyPage`), with Streaming.SolrIndexRanked and Streaming.SolrPageDelivered |

The engine and the iterator use the corrected loop: the documented guard and the
corrected end test.

## Code that differs from its comments

These are modelled as the code is written. A lemma exhibits each gap.

- **Dedup field and the sort.** The javadoc at SolrGenericStreaming.java:187 says a
  dedup field becomes the primary sort. The sort set at :240 is overwritten at :243,
  so the field is never prepended (`StreamingQuery.DedupFieldNotPrimarySort`).
- **The maxUnique ceiling.** The comments at :198-199 promise an exception past
  `maxUnique`. The value is stored at :213 and never read, and `removeDuplicates`
  (:406-420) never checks it (`Streaming.MaxUniqueNotEnforced`).
- **The ISO_TIME pattern.** The pattern at :137 has no seconds field. The
  `...T11:56:58Z` form that the comment at :112 and the message at :122-123 use is
  rejected (`StreamingQuery.IsoTimeRejectsSeconds`). `...T11:5658Z` is accepted
  (`StreamingQuery.IsoTimeAcceptsMinutesAndDigits`).
- **id with ensureUnique.** The javadoc at :185 says `id` is added to `fl` whenever
  uniqueness is on. The code at :229-231 adds it only together with
  `expandResources` (`StreamingQuery.IdNotAddedWithoutExpansion`).
- **A query without fl.** The javadoc at :178 says a missing `fl` is defaulted, and
  :203 says it throws IllegalArgumentException. In fact the split at :214 runs first
  and throws NullPointerException, as does a missing `rows` at :215
  (`StreamingQuery.MissingFlOrRowsFails`).
- **isSolrAvailable without an index watcher.** The javadoc at
  NetarchiveSolrClient.java:122-126 says the result is always true when no
  `IndexWatcher` runs. Without a watcher no status report arrives, so `solrAvailable`
  keeps the null it starts with at :53 (`SolrClient.NetarchiveSolrClient.IsSolrAvailable`
  and `SolrClient.SolrClientRegistry.Initialize`).
- **Entity order in formatEntities.** The comment at Twitter2Html.java:121 says the
  entities are inserted from the end of the text to its start. The code reverses the
  merged map, hashtags then mentions, which runs from end to start only when every
  hashtag comes before every mention. For a mention before a hashtag the mention is
  spliced first, and the hashtag's offsets then point into the new text
  (`TwitterHtml.MentionBeforeHashtagSplicedFirst`). On "@a#b" the hashtag's link
  lands inside the mention's (`TwitterHtml.MentionBeforeHashtagCorruptsText`).

## Left out

- The Solr transport (`solrServer.query`, `loggedSolrQuery`, request parameters such as
  `facet`, `stats`, `hl`, `cursorMark`) is network I/O. The index is an argument: a
  function from cursor to reply for the stream, and the returned rows for the
  re-ranking.
- Streaming.NextDocumentsSpec: termination of the cursor loop rests on a ranking of
  cursors, `Streaming.WellFounded`, that every reply not ending the stream decreases.
  This is a hypothesis about the index. A Solr-like index meets it under the
  corrected end test (`Streaming.SolrIndexRanked`), and no index with a hit meets it
  under the test as written (`Streaming.SolrIndexHasNoRankAsWritten`).
- Streaming.SolrIndex: the model of Solr's cursor paging writes a cursor mark as a
  string whose length is the number of documents passed. Real cursor marks are
  opaque, and the index is not modelled beyond its replies.
- Streaming.BatchSize: stated for `pageSize >= 1`. With `pageSize` 0 the source
  returns empty batches forever, and the model does not characterise those.
- Streaming.GenericStreaming.ExpandResources: `getHTMLResources` is an uninterpreted
  lookup (ARC parsing, link extraction and `findNearestDocuments` are not part of
  this model). Its exceptions are the lookup's `None`, which adds nothing.
- StreamingQuery.Normalise: the field set is a set. The order in which
  `String.join(",", fl)` writes a `HashSet` is not modelled.
- StreamingQuery.Normalise: the `fields` list that `getHTMLResources` passes on is
  not modelled, because its only use is that lookup.
- `SolrClient`: `normalizeUrl`, `SolrUtils.createPhrase` and `SimpleDateFormat.parse`
  are function parameters. The Solr sort used for the top 10 rows, and the query
  escaping, are not modelled.
- SolrClient.FindClosestHarvestTimeForUrl: distances are unbounded integers. The
  `long` overflow of `Math.abs(a - b)` for times more than 2^63 ms apart is not
  modelled.
- SolrClient.MaxScore: scores are reals. Java `float` rounding and NaN are not
  modelled.
- `SolrClient.MergeInto`: `numFound` is unbounded (no `long` overflow).
  - The additional list is read before `main` changes. This matches the source even
    when both arguments are the same list, because `addAll` copies its argument
    first.
- SolrClient.NetarchiveSolrClient.IndexStatusChanged: the static caching server is
  folded into the instance as a `caching` flag and a cache map. The caching client's
  own code, its eviction and `IndexWatcher`'s timer are not part of this model. The
  `default` branch of the switch is unreachable for a four-valued status, and the
  log calls are dropped.
- `SolrClient.SolrClientRegistry.Initialize`: building the HTTP clients from a URL,
  and the property-file settings, are I/O. The caching choice is an argument.
- SolrClient.FilterOwnDomain: `equalsIgnoreCase` is modelled with ASCII case folding
  only.
- SolrClient.DomainStatisticsFacet: the current year is an argument, since it
  comes from the clock. `PropertiesLoaderWeb.ARCHIVE_START_YEAR` is an argument as
  well. The rest of `domainStatisticsForQuery` (query, filters, raw JSON response) is
  I/O.
- Query wrappers without an invariant of their own are not modelled: `search*`,
  `getDomainFacetsIngoing`, `getYear*Facets`, `domainStatistics`, and the harvest
  and arc lookups. Neither are the shard, lenient and caching helpers, `SolrStats`,
  `CssPlayback`, `PropertiesLoaderWeb` or `TweetUrl`.
- The `Twitter2Html` page templates are template assembly around Solr lookups and
  resource reads. This covers `twitter2Html`, `makeUserCard`, `getQuoteHtml`,
  `getRetweetHeader`, `getImageUrlsFromSolr` and `getReactionsCss`.
- TwitterHtml.FormatEntities: offsets index characters, not UTF-16 code units. The
  parser that produces the entity maps is not part of this model.
- WarcMetadata.WarcMetadataFromSolr.SetId: `setId(null)` throws
  NullPointerException in the source. The model takes a non-null id.
- `getDuplicatesRemoveCount` and `hasFinished` are plain field reads,
  `Streaming.GenericStreaming` fields, and have no member of their own.
- StreamingQuery.BuildBaseQuery: a null `filterQueries` array is modelled as an empty
  one, which the source treats the same way.
