/** The Solr client's local helpers: the nearest-in-time re-ranking of the top rows
    for a url, the assembly of multi-url queries, the merging of grouped result
    lists, the index-availability state, the facet filter that drops a domain's
    links to itself and the time-scale choice for domain statistics.
    The index itself is not modelled: the rows a query returned are parameters, and
    url normalisation, phrase quoting and timestamp parsing are function
    parameters. */
module SolrClient {
  import opened Util
  import Streaming

  // ---------------------------------------------------------------------------
  // findClosestHarvestTimeForUrl: re-ranking the top rows
  // ---------------------------------------------------------------------------

  /** The fields of an index row that the re-ranking reads. */
  datatype IndexDoc = IndexDoc(url: string, crawlDate: string, statusCode: int)

  /** Long.MAX_VALUE, the starting "best difference". */
  const LONG_MAX: int := 0x7fff_ffff_ffff_ffff

  /** Both urls use http, or both use https. */
  predicate SameProtocol(url: string, candidate: string) {
    (StartsWith(url, "http://") && StartsWith(candidate, "http://"))
    || (StartsWith(url, "https://") && StartsWith(candidate, "https://"))
  }

  predicate IsRedirect(status: int) {
    300 <= status < 400
  }

  /** A row the re-ranking never picks: a different protocol, a missing trailing
      slash that the requested url has, or a redirect back to the requested url. */
  predicate Skipped(url: string, d: IndexDoc) {
    !SameProtocol(url, d.url)
    || (EndsWith(url, "/") && !EndsWith(d.url, "/"))
    || (IsRedirect(d.statusCode) && d.url == url)
  }

  /** The row chosen so far and its distance in ms from the requested time. */
  datatype Best = Best(index: nat, difference: int)

  /** The re-ranking over the rows `docs`, one row at a time from the first: a
      candidate row replaces the current best only when strictly nearer in time.
      Err(Parse) when a candidate's crawl date does not parse. */
  function Rerank(url: string, target: int, docs: seq<IndexDoc>, parse: string -> Option<int>): (r: Result<Best>)
    ensures r.Ok? ==> r.value.difference <= LONG_MAX
    ensures r.Ok? ==> r.value.index == 0 || r.value.index < |docs|
    ensures r.Err? ==> r.error == Parse
    decreases |docs|
  {
    if |docs| == 0 then Ok(Best(0, LONG_MAX))
    else
      var prev := Rerank(url, target, docs[..|docs| - 1], parse);
      var d := docs[|docs| - 1];
      if prev.Err? || Skipped(url, d) then prev
      else if parse(d.crawlDate).None? then Err(Parse)
      else
        var m := Abs(target - parse(d.crawlDate).value);
        if m < prev.value.difference then Ok(Best(|docs| - 1, m)) else prev
  }

  /** Row i takes part in the re-ranking. */
  predicate Candidate(url: string, docs: seq<IndexDoc>, i: int) {
    0 <= i < |docs| && !Skipped(url, docs[i])
  }

  /** Row i is a candidate whose crawl date does not parse. */
  predicate Unparsable(url: string, docs: seq<IndexDoc>, parse: string -> Option<int>, i: int) {
    Candidate(url, docs, i) && parse(docs[i].crawlDate).None?
  }

  /** Distance in ms between the requested time and row i's crawl time. */
  function Difference(target: int, docs: seq<IndexDoc>, parse: string -> Option<int>, i: int): int
    requires 0 <= i < |docs| && parse(docs[i].crawlDate).Some?
  {
    Abs(target - parse(docs[i].crawlDate).value)
  }

  /** The re-ranking fails exactly when some candidate's crawl date does not parse. */
  lemma {:induction false} RerankFails(url: string, target: int, docs: seq<IndexDoc>, parse: string -> Option<int>)
    ensures Rerank(url, target, docs, parse).Err? <==> exists i :: Unparsable(url, docs, parse, i)
    decreases |docs|
  {
    if |docs| > 0 {
      var n := |docs| - 1;
      var init := docs[..n];
      RerankFails(url, target, init, parse);
      forall i | 0 <= i < n
        ensures Unparsable(url, init, parse, i) <==> Unparsable(url, docs, parse, i)
      {
        assert init[i] == docs[i];
      }
      if Rerank(url, target, init, parse).Err? {
        var i :| Unparsable(url, init, parse, i);
        assert Unparsable(url, docs, parse, i);
      } else if Unparsable(url, docs, parse, n) {
        assert Rerank(url, target, docs, parse).Err?;
      }
      if exists i :: Unparsable(url, docs, parse, i) {
        var i :| Unparsable(url, docs, parse, i);
        if i < n {
          assert Unparsable(url, init, parse, i);
        }
      }
    }
  }

  /** What a successful re-ranking picked: when some candidate lies within Long.MAX_VALUE
      of the requested time, the first candidate at the least distance; otherwise row 0.
      Every candidate's crawl date parses. */
  ghost predicate NearestPick(url: string, target: int, docs: seq<IndexDoc>, parse: string -> Option<int>, b: Best) {
    (forall j :: Candidate(url, docs, j) ==> parse(docs[j].crawlDate).Some?)
    && (b.difference < LONG_MAX ==>
          Candidate(url, docs, b.index)
          && Difference(target, docs, parse, b.index) == b.difference
          && (forall j :: Candidate(url, docs, j) ==> b.difference <= Difference(target, docs, parse, j))
          && (forall j :: 0 <= j < b.index && Candidate(url, docs, j) ==> b.difference < Difference(target, docs, parse, j)))
    && (b.difference == LONG_MAX ==>
          b.index == 0
          && forall j :: Candidate(url, docs, j) ==> Difference(target, docs, parse, j) >= LONG_MAX)
  }

  lemma {:induction false} RerankPicksNearest(url: string, target: int, docs: seq<IndexDoc>, parse: string -> Option<int>)
    requires Rerank(url, target, docs, parse).Ok?
    ensures NearestPick(url, target, docs, parse, Rerank(url, target, docs, parse).value)
    decreases |docs|
  {
    if |docs| > 0 {
      var init := docs[..|docs| - 1];
      assert Rerank(url, target, init, parse).Ok?;
      RerankPicksNearest(url, target, init, parse);
      RerankPicksNearestSnoc(url, target, docs, parse);
    }
  }

  /** The inductive step of RerankPicksNearest: the last row either is skipped, or
      replaces the best so far when strictly nearer. */
  lemma RerankPicksNearestSnoc(url: string, target: int, docs: seq<IndexDoc>, parse: string -> Option<int>)
    requires |docs| > 0 && Rerank(url, target, docs, parse).Ok?
    requires var init := docs[..|docs| - 1];
      Rerank(url, target, init, parse).Ok?
      && NearestPick(url, target, init, parse, Rerank(url, target, init, parse).value)
    ensures NearestPick(url, target, docs, parse, Rerank(url, target, docs, parse).value)
  {
    var n := |docs| - 1;
    var init := docs[..n];
    var d := docs[n];
    var b := Rerank(url, target, init, parse).value;
    if Skipped(url, d) {
      NearestPickSkip(url, target, docs, parse, b);
    } else {
      var m := Abs(target - parse(d.crawlDate).value);
      if m < b.difference {
        NearestPickReplace(url, target, docs, parse, b);
      } else {
        NearestPickKeep(url, target, docs, parse, b);
      }
    }
  }

  /** The rows before the last are the same rows with the same distances. */
  lemma PrefixRows(url: string, target: int, docs: seq<IndexDoc>, parse: string -> Option<int>)
    requires |docs| > 0
    ensures forall j :: 0 <= j < |docs| - 1 ==> docs[..|docs| - 1][j] == docs[j]
    ensures forall j :: 0 <= j < |docs| - 1 ==> Candidate(url, docs, j) == Candidate(url, docs[..|docs| - 1], j)
  {
  }

  lemma NearestPickSkip(url: string, target: int, docs: seq<IndexDoc>, parse: string -> Option<int>, b: Best)
    requires |docs| > 0 && Skipped(url, docs[|docs| - 1])
    requires NearestPick(url, target, docs[..|docs| - 1], parse, b)
    ensures NearestPick(url, target, docs, parse, b)
  {
    PrefixRows(url, target, docs, parse);
  }

  lemma NearestPickKeep(url: string, target: int, docs: seq<IndexDoc>, parse: string -> Option<int>, b: Best)
    requires |docs| > 0 && !Skipped(url, docs[|docs| - 1])
    requires parse(docs[|docs| - 1].crawlDate).Some?
    requires b.difference <= Difference(target, docs, parse, |docs| - 1)
    requires NearestPick(url, target, docs[..|docs| - 1], parse, b)
    ensures NearestPick(url, target, docs, parse, b)
  {
    PrefixRows(url, target, docs, parse);
  }

  lemma NearestPickReplace(url: string, target: int, docs: seq<IndexDoc>, parse: string -> Option<int>, b: Best)
    requires |docs| > 0 && !Skipped(url, docs[|docs| - 1])
    requires parse(docs[|docs| - 1].crawlDate).Some?
    requires Difference(target, docs, parse, |docs| - 1) < b.difference <= LONG_MAX
    requires NearestPick(url, target, docs[..|docs| - 1], parse, b)
    ensures NearestPick(url, target, docs, parse, Best(|docs| - 1, Difference(target, docs, parse, |docs| - 1)))
  {
    PrefixRows(url, target, docs, parse);
  }

  /** Re-ranking one more row: the step of Rerank at row i. */
  lemma RerankSnoc(url: string, target: int, docs: seq<IndexDoc>, i: nat, parse: string -> Option<int>)
    requires i < |docs|
    ensures var prev := Rerank(url, target, docs[..i], parse);
      var d := docs[i];
      Rerank(url, target, docs[..i + 1], parse)
        == if prev.Err? || Skipped(url, d) then prev
           else if parse(d.crawlDate).None? then Err(Parse)
           else if Abs(target - parse(d.crawlDate).value) < prev.value.difference
           then Ok(Best(i, Abs(target - parse(d.crawlDate).value)))
           else prev
  {
    assert docs[..i + 1][..i] == docs[..i];
    assert docs[..i + 1][i] == docs[i];
  }

  /** When every row is skipped, the first row is still the answer. */
  lemma {:induction false} AllSkippedGivesFirstRow(url: string, target: int, docs: seq<IndexDoc>, parse: string -> Option<int>)
    requires forall j :: 0 <= j < |docs| ==> Skipped(url, docs[j])
    ensures Rerank(url, target, docs, parse) == Ok(Best(0, LONG_MAX))
    decreases |docs|
  {
    if |docs| > 0 {
      var init := docs[..|docs| - 1];
      forall j | 0 <= j < |init|
        ensures Skipped(url, init[j])
      {
        assert init[j] == docs[j];
      }
      AllSkippedGivesFirstRow(url, target, init, parse);
    }
  }

  /** Once a prefix of the rows fails to parse, the whole re-ranking fails. */
  lemma {:induction false} RerankFailureSticks(url: string, target: int, docs: seq<IndexDoc>, parse: string -> Option<int>, k: nat)
    requires k <= |docs| && Rerank(url, target, docs[..k], parse).Err?
    ensures Rerank(url, target, docs, parse).Err?
    decreases |docs| - k
  {
    if k < |docs| {
      assert docs[..k + 1][..k] == docs[..k];
      RerankFailureSticks(url, target, docs, parse, k + 1);
    } else {
      assert docs[..k] == docs;
    }
  }

  /** findClosestHarvestTimeForUrl after the query: `docs` are the rows the index
      returned (at most 10), `parse` turns a timestamp into ms. */
  method FindClosestHarvestTimeForUrl(url: Option<string>, timeStamp: Option<string>,
                                      docs: Option<seq<IndexDoc>>, parse: string -> Option<int>)
    returns (r: Result<Option<IndexDoc>>)
    ensures url.None? || timeStamp.None? ==> r == Err(IllegalArgument)
    ensures url.Some? && timeStamp.Some? && (docs.None? || |docs.value| == 0) ==> r == Ok(None)
    ensures url.Some? && timeStamp.Some? && docs.Some? && |docs.value| > 0 && parse(timeStamp.value).None?
            ==> r == Err(Parse)
    ensures url.Some? && timeStamp.Some? && docs.Some? && |docs.value| > 0 && parse(timeStamp.value).Some?
            ==> var rr := Rerank(url.value, parse(timeStamp.value).value, docs.value, parse);
                (rr.Err? ==> r == Err(Parse)) && (rr.Ok? ==> r == Ok(Some(docs.value[rr.value.index])))
  {
    if url.None? || timeStamp.None? {
      return Err(IllegalArgument);
    }
    if docs.None? || |docs.value| == 0 {
      return Ok(None);
    }
    var u := url.value;
    var ds := docs.value;
    var slashLast := EndsWith(u, "/");
    var parsedInput := parse(timeStamp.value);
    if parsedInput.None? {
      return Err(Parse);
    }
    var inputCrawlDate := parsedInput.value;
    var bestIndex := 0;
    var bestMatchDifference := LONG_MAX;
    var i := 0;
    while i < |ds|
      invariant 0 <= i <= |ds|
      invariant Rerank(u, inputCrawlDate, ds[..i], parse) == Ok(Best(bestIndex, bestMatchDifference))
    {
      var doc := ds[i];
      RerankSnoc(u, inputCrawlDate, ds, i, parse);
      if !SameProtocol(u, doc.url) {
        i := i + 1;
        continue;
      }
      if slashLast && !EndsWith(doc.url, "/") {
        i := i + 1;
        continue;
      }
      if IsRedirect(doc.statusCode) && doc.url == u {
        i := i + 1;
        continue;
      }
      var crawlDate := parse(doc.crawlDate);
      if crawlDate.None? {
        RerankFailureSticks(u, inputCrawlDate, ds, parse, i + 1);
        return Err(Parse);
      }
      var thisMatch := Abs(inputCrawlDate - crawlDate.value);
      if thisMatch < bestMatchDifference {
        bestIndex := i;
        bestMatchDifference := thisMatch;
      }
      i := i + 1;
    }
    assert ds[..i] == ds;
    return Ok(Some(ds[bestIndex]));
  }

  // ---------------------------------------------------------------------------
  // urlQueryJoin
  // ---------------------------------------------------------------------------

  /** The urls a query is built for: every url not starting with "data:", in order. */
  function QueryUrls(urls: seq<string>): (r: seq<string>)
    ensures |r| <= |urls|
    decreases |urls|
  {
    if |urls| == 0 then []
    else
      var init := QueryUrls(urls[..|urls| - 1]);
      if StartsWith(urls[|urls| - 1], "data:") then init else init + [urls[|urls| - 1]]
  }

  /** A url is queried exactly when it is one of the urls and not a "data:" url. */
  lemma {:induction false} QueryUrlsMembers(urls: seq<string>)
    ensures forall u :: u in QueryUrls(urls) <==> u in urls && !StartsWith(u, "data:")
    decreases |urls|
  {
    if |urls| > 0 {
      QueryUrlsMembers(urls[..|urls| - 1]);
      assert urls == urls[..|urls| - 1] + [urls[|urls| - 1]];
    }
  }

  /** Filtering distributes over concatenation, so the input order is kept. */
  lemma {:induction false} QueryUrlsAppend(a: seq<string>, b: seq<string>)
    ensures QueryUrls(a + b) == QueryUrls(a) + QueryUrls(b)
    decreases |b|
  {
    if |b| > 0 {
      var b' := b[..|b| - 1];
      assert (a + b)[..|a + b| - 1] == a + b';
      QueryUrlsAppend(a, b');
    } else {
      assert a + b == a;
    }
  }

  /** The quoted phrase of each url, in order. */
  function Phrases(createPhrase: string -> string, normalizeUrl: string -> string, urls: seq<string>): (r: seq<string>)
    ensures |r| == |urls|
    ensures forall k :: 0 <= k < |urls| ==> r[k] == createPhrase(normalizeUrl(urls[k]))
  {
    seq(|urls|, k requires 0 <= k < |urls| => createPhrase(normalizeUrl(urls[k])))
  }

  /** The separator between two phrases. */
  function Separator(operator: string): string {
    " " + operator + " "
  }

  /** The phrases of the queried urls among `urls`, joined by the operator. */
  function JoinedPhrases(createPhrase: string -> string, normalizeUrl: string -> string,
                         operator: string, urls: seq<string>): string
  {
    Join(Phrases(createPhrase, normalizeUrl, QueryUrls(urls)), Separator(operator))
  }

  /** One more url that is not a "data:" url adds its phrase, after the separator
      unless it is the first. */
  lemma JoinedPhrasesSnoc(createPhrase: string -> string, normalizeUrl: string -> string,
                          operator: string, urls: seq<string>, url: string)
    requires !StartsWith(url, "data:")
    ensures |QueryUrls(urls + [url])| > 0
    ensures JoinedPhrases(createPhrase, normalizeUrl, operator, urls + [url])
         == if |QueryUrls(urls)| == 0 then createPhrase(normalizeUrl(url))
            else JoinedPhrases(createPhrase, normalizeUrl, operator, urls) + Separator(operator)
                 + createPhrase(normalizeUrl(url))
  {
    var kept := QueryUrls(urls);
    assert (urls + [url])[..|urls|] == urls;
    assert QueryUrls(urls + [url]) == kept + [url];
    var ps := Phrases(createPhrase, normalizeUrl, kept);
    assert Phrases(createPhrase, normalizeUrl, kept + [url]) == ps + [createPhrase(normalizeUrl(url))];
    JoinSnoc(ps, createPhrase(normalizeUrl(url)), Separator(operator));
  }

  /** A "data:" url adds nothing. */
  lemma DataUrlAddsNothing(urls: seq<string>, url: string)
    requires StartsWith(url, "data:")
    ensures QueryUrls(urls + [url]) == QueryUrls(urls)
  {
    assert (urls + [url])[..|urls|] == urls;
  }

  /** urlQueryJoin: field:(phrase OP phrase ...), one phrase per non-"data:" url. */
  method UrlQueryJoin(field: string, operator: string, urls: seq<string>,
                      createPhrase: string -> string, normalizeUrl: string -> string)
    returns (r: string)
    ensures r == field + ":(" + JoinedPhrases(createPhrase, normalizeUrl, operator, urls) + ")"
  {
    var sb := field + ":(";
    ghost var head := sb;
    var first := true;
    var i := 0;
    while i < |urls|
      invariant 0 <= i <= |urls|
      invariant first <==> |QueryUrls(urls[..i])| == 0
      invariant sb == head + JoinedPhrases(createPhrase, normalizeUrl, operator, urls[..i])
    {
      var url := urls[i];
      assert urls[..i + 1] == urls[..i] + [url];
      if StartsWith(url, "data:") {
        DataUrlAddsNothing(urls[..i], url);
        i := i + 1;
        continue;
      }
      ghost var before := JoinedPhrases(createPhrase, normalizeUrl, operator, urls[..i]);
      JoinedPhrasesSnoc(createPhrase, normalizeUrl, operator, urls[..i], url);
      var phrase := createPhrase(normalizeUrl(url));
      if !first {
        AppendAssoc(head, before, Separator(operator));
        sb := sb + Separator(operator);
        AppendAssoc(head, before + Separator(operator), phrase);
      } else {
        assert sb == head by {
          assert before == "";
          assert head + "" == head;
        }
      }
      first := false;
      sb := sb + phrase;
      i := i + 1;
    }
    assert urls[..i] == urls;
    sb := sb + ")";
    return sb;
  }

  /** With only "data:" urls no url is queried and the query is the empty group
      `field:()`. */
  lemma OnlyDataUrlsGiveEmptyGroup(field: string, operator: string, urls: seq<string>,
                                   createPhrase: string -> string, normalizeUrl: string -> string)
    requires forall k :: 0 <= k < |urls| ==> StartsWith(urls[k], "data:")
    ensures QueryUrls(urls) == []
    ensures field + ":(" + JoinedPhrases(createPhrase, normalizeUrl, operator, urls) + ")" == field + ":()"
  {
    NoQueryUrls(urls);
    assert Phrases(createPhrase, normalizeUrl, QueryUrls(urls)) == [];
  }

  lemma {:induction false} NoQueryUrls(urls: seq<string>)
    requires forall k :: 0 <= k < |urls| ==> StartsWith(urls[k], "data:")
    ensures QueryUrls(urls) == []
    decreases |urls|
  {
    if |urls| > 0 {
      NoQueryUrls(urls[..|urls| - 1]);
    }
  }

  // ---------------------------------------------------------------------------
  // mergeInto and groupsToDoc
  // ---------------------------------------------------------------------------

  /** A result list: its documents, numFound and the nullable maxScore. */
  datatype DocList = DocList(docs: seq<Streaming.Doc>, numFound: int, maxScore: Option<real>)

  /** A new SolrDocumentList: no documents, numFound 0, maxScore null. */
  const EmptyList: DocList := DocList([], 0, None)

  function Max(a: real, b: real): real {
    if a >= b then a else b
  }

  /** The maxScore after a merge: the larger of two scores, or the one that is present. */
  function MaxScore(main: Option<real>, additional: Option<real>): (r: Option<real>)
    ensures r.Some? <==> main.Some? || additional.Some?
    ensures r.Some? ==> r == main || r == additional
    ensures main.Some? ==> r.value >= main.value
    ensures additional.Some? ==> r.value >= additional.value
  {
    if additional.None? then main
    else if main.None? then additional
    else Some(Max(main.value, additional.value))
  }

  /** mergeInto on values: a null list changes nothing; otherwise the documents are
      appended, numFound summed and maxScore combined. */
  function Merge(main: DocList, additional: Option<DocList>): (r: DocList)
    ensures additional.None? ==> r == main
    ensures additional.Some? ==> (
      && |r.docs| == |main.docs| + |additional.value.docs|
      && r.docs[..|main.docs|] == main.docs && r.docs[|main.docs|..] == additional.value.docs
      && r.numFound == main.numFound + additional.value.numFound
      && r.maxScore == MaxScore(main.maxScore, additional.value.maxScore))
  {
    match additional
    case None => main
    case Some(a) => DocList(main.docs + a.docs, main.numFound + a.numFound, MaxScore(main.maxScore, a.maxScore))
  }

  /** Merging is associative and the empty list is neutral on both sides. */
  lemma MergeMonoid(a: DocList, b: DocList, c: DocList)
    ensures Merge(Merge(a, Some(b)), Some(c)) == Merge(a, Some(Merge(b, Some(c))))
    ensures Merge(EmptyList, Some(a)) == a && Merge(a, Some(EmptyList)) == a
  {
    assert (a.docs + b.docs) + c.docs == a.docs + (b.docs + c.docs);
    assert EmptyList.docs + a.docs == a.docs;
    assert a.docs + EmptyList.docs == a.docs;
  }

  /** A mutable SolrDocumentList. */
  class DocumentList {
    var docs: seq<Streaming.Doc>
    var numFound: int
    var maxScore: Option<real>

    function Value(): DocList
      reads this
    {
      DocList(docs, numFound, maxScore)
    }

    constructor ()
      ensures Value() == EmptyList
    {
      docs, numFound, maxScore := [], 0, None;
    }
  }

  /** mergeInto(main, additional). `additional` is read before `main` changes, which
      is also what the call does when both name the same list. */
  method MergeInto(main: DocumentList, additional: Option<DocList>)
    modifies main
    ensures main.Value() == Merge(old(main.Value()), additional)
  {
    if additional.None? {
      return;
    }
    var a := additional.value;
    main.docs := main.docs + a.docs;
    if a.maxScore.Some? {
      main.maxScore := if main.maxScore.None? then a.maxScore else Some(Max(main.maxScore.value, a.maxScore.value));
    }
    main.numFound := main.numFound + a.numFound;
  }

  /** The grouping part of a query response, each level nullable as in SolrJ. */
  datatype Group = Group(result: Option<DocList>)
  datatype GroupCommand = GroupCommand(values: seq<Group>)
  datatype GroupResponse = GroupResponse(values: Option<seq<GroupCommand>>)
  datatype QueryResponse = QueryResponse(groupResponse: Option<GroupResponse>)

  /** The result lists of the groups of one command, in order. */
  function GroupResults(groups: seq<Group>): (r: seq<Option<DocList>>)
    ensures |r| == |groups|
    ensures forall k :: 0 <= k < |groups| ==> r[k] == groups[k].result
  {
    seq(|groups|, k requires 0 <= k < |groups| => groups[k].result)
  }

  /** The result lists of every group of every command, command by command. */
  function CommandResults(commands: seq<GroupCommand>): seq<Option<DocList>>
    decreases |commands|
  {
    if |commands| == 0 then []
    else CommandResults(commands[..|commands| - 1]) + GroupResults(commands[|commands| - 1].values)
  }

  function ResponseResults(rsp: Option<QueryResponse>): seq<Option<DocList>> {
    if rsp.None? || rsp.value.groupResponse.None? || rsp.value.groupResponse.value.values.None? then []
    else CommandResults(rsp.value.groupResponse.value.values.value)
  }

  /** Merging the lists one after the other into `acc`. */
  function MergeAll(acc: DocList, lists: seq<Option<DocList>>): DocList
    decreases |lists|
  {
    if |lists| == 0 then acc else Merge(MergeAll(acc, lists[..|lists| - 1]), lists[|lists| - 1])
  }

  /** An independent description of a merged list: the documents of the non-null lists
      concatenated in order, and the sum of their numFound. */
  function AllDocs(lists: seq<Option<DocList>>): seq<Streaming.Doc>
    decreases |lists|
  {
    if |lists| == 0 then []
    else if lists[0].None? then AllDocs(lists[1..])
    else lists[0].value.docs + AllDocs(lists[1..])
  }

  function TotalFound(lists: seq<Option<DocList>>): int
    decreases |lists|
  {
    if |lists| == 0 then 0
    else if lists[0].None? then TotalFound(lists[1..])
    else lists[0].value.numFound + TotalFound(lists[1..])
  }

  lemma {:induction false} AllDocsSnoc(lists: seq<Option<DocList>>, x: Option<DocList>)
    ensures AllDocs(lists + [x]) == AllDocs(lists) + (if x.None? then [] else x.value.docs)
    ensures TotalFound(lists + [x]) == TotalFound(lists) + (if x.None? then 0 else x.value.numFound)
    decreases |lists|
  {
    if |lists| == 0 {
      assert [x][1..] == [];
    } else {
      assert (lists + [x])[1..] == lists[1..] + [x];
      AllDocsSnoc(lists[1..], x);
    }
  }

  lemma GroupResultsSnoc(groups: seq<Group>, j: nat)
    requires j < |groups|
    ensures GroupResults(groups[..j + 1]) == GroupResults(groups[..j]) + [groups[j].result]
  {
  }

  lemma CommandResultsSnoc(commands: seq<GroupCommand>, i: nat)
    requires i < |commands|
    ensures CommandResults(commands[..i + 1]) == CommandResults(commands[..i]) + GroupResults(commands[i].values)
  {
    assert commands[..i + 1][..i] == commands[..i];
  }

  lemma MergeAllSnoc(acc: DocList, lists: seq<Option<DocList>>, x: Option<DocList>)
    ensures MergeAll(acc, lists + [x]) == Merge(MergeAll(acc, lists), x)
  {
    assert (lists + [x])[..|lists|] == lists;
  }

  /** Merging a sequence of lists into an empty list concatenates their documents in
      order and sums their numFound. */
  lemma {:induction false} MergeAllFlattens(lists: seq<Option<DocList>>)
    ensures MergeAll(EmptyList, lists).docs == AllDocs(lists)
    ensures MergeAll(EmptyList, lists).numFound == TotalFound(lists)
    decreases |lists|
  {
    if |lists| > 0 {
      var init := lists[..|lists| - 1];
      MergeAllFlattens(init);
      AllDocsSnoc(init, lists[|lists| - 1]);
      assert init + [lists[|lists| - 1]] == lists;
    }
  }

  /** groupsToDoc: every group's result list merged, in order, into a new list. A null
      response, group response or command list gives the empty list. */
  method GroupsToDoc(rsp: Option<QueryResponse>) returns (r: DocList)
    ensures r == MergeAll(EmptyList, ResponseResults(rsp))
  {
    var docs := new DocumentList();
    if rsp.None? || rsp.value.groupResponse.None? || rsp.value.groupResponse.value.values.None?
       || |rsp.value.groupResponse.value.values.value| == 0 {
      return docs.Value();
    }
    var commands := rsp.value.groupResponse.value.values.value;
    var i := 0;
    while i < |commands|
      invariant 0 <= i <= |commands|
      invariant docs.Value() == MergeAll(EmptyList, CommandResults(commands[..i]))
    {
      var groups := commands[i].values;
      ghost var before := CommandResults(commands[..i]);
      var j := 0;
      assert before + GroupResults(groups[..0]) == before;
      while j < |groups|
        invariant 0 <= j <= |groups|
        invariant docs.Value() == MergeAll(EmptyList, before + GroupResults(groups[..j]))
      {
        ghost var merged := before + GroupResults(groups[..j]);
        assert before + GroupResults(groups[..j + 1]) == merged + [groups[j].result] by {
          GroupResultsSnoc(groups, j);
          AppendAssoc(before, GroupResults(groups[..j]), [groups[j].result]);
        }
        MergeAllSnoc(EmptyList, merged, groups[j].result);
        MergeInto(docs, groups[j].result);
        j := j + 1;
      }
      assert groups[..j] == groups;
      CommandResultsSnoc(commands, i);
      i := i + 1;
    }
    assert commands[..i] == commands;
    return docs.Value();
  }

  /** A response without groups gives a list with no documents and numFound 0. */
  lemma NoGroupsGiveEmptyList(rsp: Option<QueryResponse>)
    requires rsp.None? || rsp.value.groupResponse.None? || rsp.value.groupResponse.value.values.None?
             || |rsp.value.groupResponse.value.values.value| == 0
    ensures MergeAll(EmptyList, ResponseResults(rsp)) == EmptyList
  {
  }

  // ---------------------------------------------------------------------------
  // Index availability: indexStatusChanged, isSolrAvailable, getInstance
  // ---------------------------------------------------------------------------

  /** The statuses the index watcher reports. */
  datatype IndexStatus = Changed | Available | Unavailable | Undetermined

  /** solrAvailable after one status report. */
  function Availability(current: Option<bool>, status: IndexStatus): Option<bool> {
    match status
    case Available => Some(true)
    case Unavailable => Some(false)
    case _ => current
  }

  /** solrAvailable after a sequence of reports. */
  function AvailabilityAfter(current: Option<bool>, reports: seq<IndexStatus>): Option<bool>
    decreases |reports|
  {
    if |reports| == 0 then current
    else AvailabilityAfter(Availability(current, reports[0]), reports[1..])
  }

  /** One more report acts on the availability the earlier ones gave. */
  lemma {:induction false} AvailabilitySnoc(current: Option<bool>, reports: seq<IndexStatus>, s: IndexStatus)
    ensures AvailabilityAfter(current, reports + [s]) == Availability(AvailabilityAfter(current, reports), s)
    decreases |reports|
  {
    if |reports| == 0 {
      assert [s][1..] == [];
    } else {
      assert (reports + [s])[0] == reports[0] && (reports + [s])[1..] == reports[1..] + [s];
      AvailabilitySnoc(Availability(current, reports[0]), reports[1..], s);
    }
  }

  predicate Decisive(s: IndexStatus) {
    s == Available || s == Unavailable
  }

  /** Report k is available or unavailable and no later report is either. */
  predicate LastDecisive(reports: seq<IndexStatus>, k: int) {
    0 <= k < |reports| && Decisive(reports[k]) && forall l :: k < l < |reports| ==> !Decisive(reports[l])
  }

  /** The availability is the one the latest available/unavailable report gave, and
      stays as it was when there is no such report. */
  lemma {:induction false} LatestDecisiveReportWins(current: Option<bool>, reports: seq<IndexStatus>)
    ensures (forall k :: 0 <= k < |reports| ==> !Decisive(reports[k]))
            ==> AvailabilityAfter(current, reports) == current
    ensures forall k :: LastDecisive(reports, k) ==> AvailabilityAfter(current, reports) == Some(reports[k] == Available)
  {
    if forall k :: 0 <= k < |reports| ==> !Decisive(reports[k]) {
      NoDecisiveReportKeeps(current, reports);
    }
    forall k | LastDecisive(reports, k)
      ensures AvailabilityAfter(current, reports) == Some(reports[k] == Available)
    {
      LastDecisiveReportSets(current, reports, k);
    }
  }

  lemma {:induction false} NoDecisiveReportKeeps(current: Option<bool>, reports: seq<IndexStatus>)
    requires forall k :: 0 <= k < |reports| ==> !Decisive(reports[k])
    ensures AvailabilityAfter(current, reports) == current
    decreases |reports|
  {
    if |reports| > 0 {
      assert !Decisive(reports[0]);
      var rest := reports[1..];
      forall l | 0 <= l < |rest|
        ensures !Decisive(rest[l])
      {
        assert rest[l] == reports[l + 1];
      }
      NoDecisiveReportKeeps(current, rest);
    }
  }

  lemma {:induction false} LastDecisiveReportSets(current: Option<bool>, reports: seq<IndexStatus>, k: nat)
    requires LastDecisive(reports, k)
    ensures AvailabilityAfter(current, reports) == Some(reports[k] == Available)
    decreases |reports|
  {
    var rest := reports[1..];
    forall l | k <= l < |rest|
      ensures !Decisive(rest[l])
    {
      assert rest[l] == reports[l + 1];
    }
    if k == 0 {
      NoDecisiveReportKeeps(Availability(current, reports[0]), rest);
    } else {
      assert rest[k - 1] == reports[k];
      LastDecisiveReportSets(Availability(current, reports[0]), rest, k - 1);
    }
  }

  /** The client singleton. `caching` says whether the shared server connection is a
      caching client; `cache` is that client's stored responses (query to response). */
  class NetarchiveSolrClient {
    var solrAvailable: Option<bool>
    const caching: bool
    var cache: map<string, string>
    /** The status reports received so far, oldest first. */
    ghost var reports: seq<IndexStatus>

    /** The availability is the one the reports received so far give. */
    ghost predicate Valid()
      reads this
    {
      solrAvailable == AvailabilityAfter(None, reports)
    }

    /** A new client has not yet been told whether the index is available. */
    constructor (caching: bool, cache: map<string, string>)
      ensures solrAvailable == None && this.caching == caching && this.cache == cache
      ensures reports == [] && Valid()
    {
      solrAvailable := None;
      this.caching := caching;
      this.cache := cache;
      reports := [];
    }

    /** isSolrAvailable: null until an available or unavailable report arrives,
        then what the latest such report said. */
    function IsSolrAvailable(): (r: Option<bool>)
      requires Valid()
      reads this
      ensures r == AvailabilityAfter(None, reports)
    {
      solrAvailable
    }

    /** indexStatusChanged: a change clears the cache of a caching client; available
        and unavailable set the availability; undetermined changes nothing. */
    method IndexStatusChanged(status: IndexStatus)
      requires Valid()
      modifies this
      ensures Valid() && reports == old(reports) + [status]
      ensures IsSolrAvailable() == Availability(old(IsSolrAvailable()), status)
      ensures cache == if status == Changed && caching then map[] else old(cache)
    {
      AvailabilitySnoc(None, reports, status);
      reports := reports + [status];
      match status {
        case Changed =>
          if caching {
            cache := map[];
          }
        case Available =>
          solrAvailable := Some(true);
        case Unavailable =>
          solrAvailable := Some(false);
        case Undetermined =>
      }
    }
  }

  /** The static part: the instance that initialize creates and getInstance returns. */
  class SolrClientRegistry {
    var instance: Option<NetarchiveSolrClient>

    constructor ()
      ensures instance.None?
    {
      instance := None;
    }

    /** initialize: a new client, caching or not as configured, with an empty cache. */
    method Initialize(caching: bool)
      modifies this
      ensures instance.Some? && fresh(instance.value)
      ensures instance.value.Valid() && instance.value.reports == []
      ensures instance.value.IsSolrAvailable().None? && instance.value.caching == caching
      ensures instance.value.cache == map[]
    {
      var c := new NetarchiveSolrClient(caching, map[]);
      instance := Some(c);
    }

    /** getInstance: IllegalArgumentException before initialize. */
    method GetInstance() returns (r: Result<NetarchiveSolrClient>)
      ensures instance.None? <==> r == Err(IllegalArgument)
      ensures instance.Some? ==> r == Ok(instance.value)
    {
      if instance.None? {
        return Err(IllegalArgument);
      }
      return Ok(instance.value);
    }
  }

  // ---------------------------------------------------------------------------
  // getDomainFacetsOutgoing: dropping the domain itself
  // ---------------------------------------------------------------------------

  /** A facet value with its count, as the index reports it. */
  datatype Count = Count(name: string, count: int)

  /** The facet entry handed to callers. */
  datatype FacetCount = FacetCount(value: string, count: int)

  /** The linked domains other than `domain` (compared ignoring case), in order. */
  function OtherDomains(values: seq<Count>, domain: string): seq<FacetCount>
    decreases |values|
  {
    if |values| == 0 then []
    else
      var init := OtherDomains(values[..|values| - 1], domain);
      var c := values[|values| - 1];
      if EqualsIgnoreCase(c.name, domain) then init else init + [FacetCount(c.name, c.count)]
  }

  /** An entry is kept exactly when it does not name the domain; names and counts are
      copied unchanged and no entry is added. */
  lemma {:induction false} OtherDomainsMembers(values: seq<Count>, domain: string)
    ensures |OtherDomains(values, domain)| <= |values|
    ensures forall n, k :: FacetCount(n, k) in OtherDomains(values, domain)
                           <==> Count(n, k) in values && !EqualsIgnoreCase(n, domain)
    decreases |values|
  {
    if |values| > 0 {
      var init := values[..|values| - 1];
      OtherDomainsMembers(init, domain);
      assert values == init + [values[|values| - 1]];
    }
  }

  /** The filter distributes over concatenation, so the order of the rest is kept. */
  lemma {:induction false} OtherDomainsAppend(a: seq<Count>, b: seq<Count>, domain: string)
    ensures OtherDomains(a + b, domain) == OtherDomains(a, domain) + OtherDomains(b, domain)
    decreases |b|
  {
    if |b| > 0 {
      var b' := b[..|b| - 1];
      assert (a + b)[..|a + b| - 1] == a + b';
      OtherDomainsAppend(a, b', domain);
    } else {
      assert a + b == a;
    }
  }

  /** The number of entries that name the domain, ignoring case. */
  function OwnEntries(values: seq<Count>, domain: string): nat
    decreases |values|
  {
    if |values| == 0 then 0
    else OwnEntries(values[..|values| - 1], domain)
         + (if EqualsIgnoreCase(values[|values| - 1].name, domain) then 1 else 0)
  }

  /** Every entry is either kept or names the domain. */
  lemma {:induction false} OtherDomainsCount(values: seq<Count>, domain: string)
    ensures |OtherDomains(values, domain)| + OwnEntries(values, domain) == |values|
    decreases |values|
  {
    if |values| > 0 {
      OtherDomainsCount(values[..|values| - 1], domain);
    }
  }

  /** Why one more entry is asked for: a full facet page that names the domain
      once still leaves the wanted number of other domains. */
  lemma FacetLimitLeavesWanted(facetLimit: int, values: seq<Count>, domain: string)
    requires |values| == FacetLimit(facetLimit) && OwnEntries(values, domain) == 1
    ensures |OtherDomains(values, domain)| == facetLimit
  {
    OtherDomainsCount(values, domain);
  }

  /** The facet loop of getDomainFacetsOutgoing over the reported values. */
  method FilterOwnDomain(values: seq<Count>, domain: string) returns (r: seq<FacetCount>)
    ensures r == OtherDomains(values, domain)
  {
    r := [];
    var i := 0;
    while i < |values|
      invariant 0 <= i <= |values|
      invariant r == OtherDomains(values[..i], domain)
    {
      var c := values[i];
      assert values[..i + 1][..i] == values[..i];
      if !EqualsIgnoreCase(c.name, domain) {
        r := r + [FacetCount(c.name, c.count)];
      }
      i := i + 1;
    }
    assert values[..i] == values;
  }

  /** The facet limit asked for: one more than wanted, as the domain itself is removed. */
  function FacetLimit(facetLimit: int): (r: int)
    ensures r - 1 == facetLimit
  {
    facetLimit + 1
  }

  // ---------------------------------------------------------------------------
  // domainStatisticsForQuery: the time scale
  // ---------------------------------------------------------------------------

  /** The range gap for a named scale; YEAR and every unknown name give one year. */
  function Gap(scale: string): (r: string)
    ensures r in {"'+1MONTH'", "'+7DAYS'", "'+1DAY'", "'+1YEAR'"}
    ensures r == "'+1MONTH'" <==> scale == "MONTH"
    ensures r == "'+7DAYS'" <==> scale == "WEEK"
    ensures r == "'+1DAY'" <==> scale == "DAY"
  {
    if scale == "MONTH" then "'+1MONTH'"
    else if scale == "WEEK" then "'+7DAYS'"
    else if scale == "DAY" then "'+1DAY'"
    else "'+1YEAR'"
  }

  /** How a string argument appears when concatenated: null prints as "null". */
  function Text(s: Option<string>): string {
    if s.None? then "null" else s.value
  }

  const FACET_HEAD: string := "{domains:{type:terms,field:domain,limit:30,facet:{years:{type:range,field:"

  /** The json.facet parameter: by crawl year from the archive's first year to the
      year after the current one (the end is exclusive) when no scale is given,
      otherwise by crawl date from the start date's midnight to the end date's, in
      UTC, with the scale's gap. */
  function DomainStatisticsFacet(scale: Option<string>, startdate: Option<string>, enddate: Option<string>,
                                 archiveStartYear: int, currentYear: int): (r: string)
    ensures scale.None? || scale.value == "" ==>
      && StartsWith(r, FACET_HEAD + "crawl_year,start:" + IntToString(archiveStartYear) + ",end:")
      && EndsWith(r, ",end:" + (IntToString(currentYear + 1) + ",gap:1}}}}"))
    ensures scale.Some? && scale.value != "" ==>
      && StartsWith(r, FACET_HEAD + "crawl_date,start:" + "'" + Text(startdate) + "T00:00:00Z'" + ",end:")
      && EndsWith(r, ",end:" + ("'" + Text(enddate) + "T00:00:00Z'" + ",gap:" + Gap(scale.value) + "}}}}"))
  {
    if scale.None? || scale.value == "" then
      var start := FACET_HEAD + "crawl_year,start:" + IntToString(archiveStartYear);
      var end := IntToString(currentYear + 1) + ",gap:1}}}}";
      FramedShape(start, ",end:", end);
      Framed(start, ",end:", end)
    else
      var start := FACET_HEAD + "crawl_date,start:" + "'" + Text(startdate) + "T00:00:00Z'";
      var end := "'" + Text(enddate) + "T00:00:00Z'" + ",gap:" + Gap(scale.value) + "}}}}";
      FramedShape(start, ",end:", end);
      Framed(start, ",end:", end)
  }

  /** A string in three parts: the range start, the separator and the range end. */
  function Framed(head: string, sep: string, tail: string): string {
    head + sep + tail
  }

  lemma FramedShape(head: string, sep: string, tail: string)
    ensures StartsWith(Framed(head, sep, tail), head + sep) && EndsWith(Framed(head, sep, tail), sep + tail)
  {
    StartsWithConcat(head + sep, tail);
    AppendAssoc(head, sep, tail);
    EndsWithConcat(head, sep + tail);
  }
}
