/** The cursor-paged streaming engine: each page fetched from the index passes
    through adjacent-value deduplication, resource expansion and set-based
    uniqueness, and is handed out in batches of at most the page size; an
    iterator hands the batches out one document at a time.

    The index is a function from a cursor mark to a reply, fixed for the stream's
    query. The lookup of an HTML page's embedded resources is a function from the
    page's source file path and offset to the resource documents, `None` standing
    for any exception the lookup throws. */
module Streaming {
  import opened Util
  import opened StreamingQuery

  /** A Solr document: field name to value. */
  datatype Doc = Doc(fields: map<string, string>)

  function FieldValue(d: Doc, field: string): Option<string> {
    if field in d.fields then Some(d.fields[field]) else None
  }

  datatype Response = Response(results: seq<Doc>, numFound: int, nextCursorMark: string)

  datatype Reply = Answer(response: Response) | TransportFailure

  /** The fixed inputs of one stream. */
  datatype Env = Env(
    settings: Settings,
    backend: string -> Reply,
    resolve: (string, string) -> Option<seq<Doc>>)

  /** The mutable fields of the engine. */
  datatype State = State(
    cursorMark: string,
    undelivered: Option<seq<Doc>>,
    hasFinished: bool,
    duplicatesRemoved: int,
    lastDedupValue: Option<string>,
    uniqueTracker: set<string>)

  function InitialState(s: Settings): State {
    State(s.cursorMark, None, false, 0, None, {})
  }

  /** What nextDocuments returns: a batch, null, or an exception. */
  datatype Batch = Docs(docs: seq<Doc>) | NoMore | Failure(error: JavaException)

  /** How a reply ends the stream. As written only `numFound == 0` does. Solr reports
      the total number of hits on every page, and past the last page it answers an
      empty page that repeats the cursor, so the corrected test also ends the stream
      on an empty page. */
  datatype EndTest = NumFoundZero | EmptyPage

  predicate Ends(t: EndTest, rsp: Response) {
    rsp.numFound == 0 || (t == EmptyPage && |rsp.results| == 0)
  }

  /** Termination hypothesis on the index: every reply that does not end the stream
      moves the cursor to one of lower rank. */
  ghost predicate WellFounded(backend: string -> Reply, rank: string -> nat, t: EndTest) {
    forall c :: backend(c).Answer? && !Ends(t, backend(c).response) ==>
      rank(backend(c).response.nextCursorMark) < rank(c)
  }

  // ---------------------------------------------------------------------------
  // streamDeduplicate
  // ---------------------------------------------------------------------------

  /** A document is accepted when no value is remembered or its value differs from
      the remembered one (a missing value differs from any remembered value). */
  predicate Accepts(last: Option<string>, v: Option<string>) {
    last.None? || last != v
  }

  datatype DedupResult = DedupResult(kept: seq<Doc>, last: Option<string>, removed: nat)

  /** Adjacent-value deduplication of one page, starting from the value remembered
      from earlier pages. */
  function Dedup(docs: seq<Doc>, field: string, last: Option<string>): (r: DedupResult)
    ensures |r.kept| + r.removed == |docs|
    decreases |docs|
  {
    if |docs| == 0 then DedupResult([], last, 0)
    else
      var v := FieldValue(docs[0], field);
      if Accepts(last, v) then
        var rest := Dedup(docs[1..], field, v);
        DedupResult([docs[0]] + rest.kept, rest.last, rest.removed)
      else
        var rest := Dedup(docs[1..], field, last);
        DedupResult(rest.kept, rest.last, rest.removed + 1)
  }

  /** One step of Dedup on the documents from position i on. */
  lemma DedupAt(docs: seq<Doc>, i: nat, field: string, last: Option<string>)
    requires i < |docs|
    ensures var v := FieldValue(docs[i], field);
      Dedup(docs[i..], field, last)
        == if Accepts(last, v) then
             var rest := Dedup(docs[i + 1..], field, v);
             DedupResult([docs[i]] + rest.kept, rest.last, rest.removed)
           else
             var rest := Dedup(docs[i + 1..], field, last);
             DedupResult(rest.kept, rest.last, rest.removed + 1)
  {
    assert docs[i..][0] == docs[i];
    assert docs[i..][1..] == docs[i + 1..];
  }

  /** The loop state of streamDeduplicate after i documents: the documents kept so
      far, followed by what the rest of the page keeps from the remembered value, are
      what the whole page keeps, and the counts add up likewise. */
  predicate DedupProgress(docs: seq<Doc>, field: string, i: nat, kept: seq<Doc>, last: Option<string>,
                          removed: int, total: DedupResult, base: int)
    requires i <= |docs|
  {
    var rest := Dedup(docs[i..], field, last);
    kept + rest.kept == total.kept && rest.last == total.last && removed + rest.removed == base + total.removed
  }

  lemma DedupProgressStep(docs: seq<Doc>, field: string, i: nat, kept: seq<Doc>, last: Option<string>,
                          removed: int, total: DedupResult, base: int)
    requires i < |docs| && DedupProgress(docs, field, i, kept, last, removed, total, base)
    ensures var v := FieldValue(docs[i], field);
      if Accepts(last, v) then DedupProgress(docs, field, i + 1, kept + [docs[i]], v, removed, total, base)
      else DedupProgress(docs, field, i + 1, kept, last, removed + 1, total, base)
  {
    DedupAt(docs, i, field, last);
    var v := FieldValue(docs[i], field);
    if Accepts(last, v) {
      AppendAssoc(kept, [docs[i]], Dedup(docs[i + 1..], field, v).kept);
    }
  }

  lemma DedupProgressDone(docs: seq<Doc>, field: string, kept: seq<Doc>, last: Option<string>,
                          removed: int, total: DedupResult, base: int)
    requires DedupProgress(docs, field, |docs|, kept, last, removed, total, base)
    ensures kept == total.kept && last == total.last && removed == base + total.removed
  {
    assert docs[|docs|..] == [];
  }

  /** The loop of streamDeduplicate over one page: keeps a document when its value
      differs from the last kept one, and counts the others. */
  method DedupPage(docs: seq<Doc>, field: string, start: Option<string>)
    returns (unique: seq<Doc>, last: Option<string>, removed: nat)
    ensures DedupResult(unique, last, removed) == Dedup(docs, field, start)
  {
    unique, last, removed := [], start, 0;
    ghost var total := Dedup(docs, field, start);
    var i := 0;
    while i < |docs|
      invariant 0 <= i <= |docs|
      invariant DedupProgress(docs, field, i, unique, last, removed, total, 0)
    {
      DedupProgressStep(docs, field, i, unique, last, removed, total, 0);
      var v := FieldValue(docs[i], field);
      if last.None? || last != v {
        last := v;
        unique := unique + [docs[i]];
      } else {
        removed := removed + 1;
      }
      i := i + 1;
    }
    DedupProgressDone(docs, field, unique, last, removed, total, 0);
  }

  /** `a` is `b` with some elements left out, order kept. */
  ghost predicate Subsequence<T>(a: seq<T>, b: seq<T>)
    decreases |b|
  {
    if |a| == 0 then true
    else if |b| == 0 then false
    else if a[0] == b[0] then Subsequence(a[1..], b[1..])
    else Subsequence(a, b[1..])
  }

  lemma {:induction false} DedupKeepsOrder(docs: seq<Doc>, field: string, last: Option<string>)
    ensures Subsequence(Dedup(docs, field, last).kept, docs)
    decreases |docs|
  {
    if |docs| > 0 {
      var v := FieldValue(docs[0], field);
      if Accepts(last, v) {
        DedupKeepsOrder(docs[1..], field, v);
      } else {
        DedupKeepsOrder(docs[1..], field, last);
        SubsequenceSkip(Dedup(docs[1..], field, last).kept, docs[0], docs[1..]);
      }
    }
  }

  /** Putting an element in front of the right sequence keeps it a subsequence. */
  lemma {:induction false} SubsequenceSkip<T>(a: seq<T>, x: T, b: seq<T>)
    requires Subsequence(a, b)
    ensures Subsequence(a, [x] + b)
    decreases |b|, 1
  {
    assert ([x] + b)[1..] == b;
    if |a| > 0 && a[0] == x {
      SubsequenceTail(a, b);
    }
  }

  /** Dropping the head of the left sequence keeps it a subsequence. */
  lemma {:induction false} SubsequenceTail<T>(a: seq<T>, b: seq<T>)
    requires |a| > 0 && Subsequence(a, b)
    ensures Subsequence(a[1..], b)
    decreases |b|, 0
  {
    assert |b| > 0;
    if a[0] == b[0] {
      SubsequenceSkip(a[1..], b[0], b[1..]);
    } else {
      SubsequenceTail(a, b[1..]);
      SubsequenceSkip(a[1..], b[0], b[1..]);
    }
    assert [b[0]] + b[1..] == b;
  }

  /** Every kept document is accepted against the value of the document kept
      before it (the remembered value for the first), and the value remembered
      afterwards is that of the last kept document. */
  lemma {:induction false} DedupAdjacent(docs: seq<Doc>, field: string, last: Option<string>)
    ensures var r := Dedup(docs, field, last);
      && (|r.kept| > 0 ==> Accepts(last, FieldValue(r.kept[0], field)))
      && (forall i :: 0 <= i < |r.kept| - 1 ==>
            Accepts(FieldValue(r.kept[i], field), FieldValue(r.kept[i + 1], field)))
      && r.last == (if |r.kept| == 0 then last else FieldValue(r.kept[|r.kept| - 1], field))
    decreases |docs|
  {
    if |docs| > 0 {
      var v := FieldValue(docs[0], field);
      if Accepts(last, v) {
        DedupAdjacent(docs[1..], field, v);
        var rest := Dedup(docs[1..], field, v).kept;
        var kept := [docs[0]] + rest;
        assert Dedup(docs, field, last).kept == kept;
        assert Dedup(docs, field, last).last == Dedup(docs[1..], field, v).last;
        assert kept[|kept| - 1] == if |rest| == 0 then docs[0] else rest[|rest| - 1];
        forall i | 0 <= i < |kept| - 1
          ensures Accepts(FieldValue(kept[i], field), FieldValue(kept[i + 1], field))
        {
          if i > 0 {
            assert kept[i] == rest[i - 1] && kept[i + 1] == rest[i];
          }
        }
      } else {
        DedupAdjacent(docs[1..], field, last);
      }
    }
  }

  /** The remembered value carries deduplication across page boundaries. */
  lemma {:induction false} DedupAppend(a: seq<Doc>, b: seq<Doc>, field: string, last: Option<string>)
    ensures var ra := Dedup(a, field, last);
      var rb := Dedup(b, field, ra.last);
      Dedup(a + b, field, last) == DedupResult(ra.kept + rb.kept, rb.last, ra.removed + rb.removed)
    decreases |a|, 1
  {
    if |a| == 0 {
      assert a + b == b;
    } else {
      DedupAppendCons(a, b, field, last);
    }
  }

  /** The inductive step of DedupAppend, for a non-empty first page. */
  lemma {:induction false} DedupAppendCons(a: seq<Doc>, b: seq<Doc>, field: string, last: Option<string>)
    requires |a| > 0
    ensures var ra := Dedup(a, field, last);
      var rb := Dedup(b, field, ra.last);
      Dedup(a + b, field, last) == DedupResult(ra.kept + rb.kept, rb.last, ra.removed + rb.removed)
    decreases |a|, 0
  {
    var ab := a + b;
    assert ab[0] == a[0] && ab[1..] == a[1..] + b;
    var v := FieldValue(a[0], field);
    var next := if Accepts(last, v) then v else last;
    DedupAppend(a[1..], b, field, next);
    var tail := Dedup(a[1..], field, next);
    var rb := Dedup(b, field, tail.last);
    if Accepts(last, v) {
      assert [a[0]] + (tail.kept + rb.kept) == ([a[0]] + tail.kept) + rb.kept;
    }
  }

  /** Per document: a document is dropped exactly when a value is remembered after
      the documents before it and its own value equals it; the remembered value is
      the last kept document's, or the one carried in when nothing was kept. */
  lemma DedupSnoc(a: seq<Doc>, d: Doc, field: string, last: Option<string>)
    ensures var ra := Dedup(a, field, last);
      var v := FieldValue(d, field);
      && Dedup(a + [d], field, last).kept
           == ra.kept + (if ra.last.Some? && v == ra.last then [] else [d])
      && ra.last == (if |ra.kept| == 0 then last else FieldValue(ra.kept[|ra.kept| - 1], field))
  {
    var ra := Dedup(a, field, last);
    DedupAppend(a, [d], field, last);
    DedupAdjacent(a, field, last);
    DedupSingle(d, field, ra.last);
  }

  lemma DedupSingle(d: Doc, field: string, last: Option<string>)
    ensures var v := FieldValue(d, field);
      Dedup([d], field, last) == if Accepts(last, v) then DedupResult([d], v, 0) else DedupResult([], last, 1)
  {
    assert [d][1..] == [];
  }

  /** Deduplicating the kept documents again, from the same remembered value,
      removes nothing. */
  lemma DedupIdempotent(docs: seq<Doc>, field: string, last: Option<string>)
    ensures var r := Dedup(docs, field, last);
      Dedup(r.kept, field, last) == DedupResult(r.kept, r.last, 0)
  {
    DedupAdjacent(docs, field, last);
    AcceptedChainKept(Dedup(docs, field, last).kept, field, last);
  }

  lemma {:induction false} AcceptedChainKept(kept: seq<Doc>, field: string, last: Option<string>)
    requires |kept| > 0 ==> Accepts(last, FieldValue(kept[0], field))
    requires forall i :: 0 <= i < |kept| - 1 ==>
      Accepts(FieldValue(kept[i], field), FieldValue(kept[i + 1], field))
    ensures Dedup(kept, field, last) ==
      DedupResult(kept, if |kept| == 0 then last else FieldValue(kept[|kept| - 1], field), 0)
    decreases |kept|
  {
    if |kept| > 0 {
      var rest := kept[1..];
      forall i | 0 <= i < |rest| - 1
        ensures Accepts(FieldValue(rest[i], field), FieldValue(rest[i + 1], field))
      {
        assert rest[i] == kept[i + 1] && rest[i + 1] == kept[i + 2];
      }
      AcceptedChainKept(rest, field, FieldValue(kept[0], field));
      assert [kept[0]] + rest == kept;
    }
  }

  // ---------------------------------------------------------------------------
  // expandResources / getHTMLResources
  // ---------------------------------------------------------------------------

  predicate IsHtml(d: Doc) {
    FieldValue(d, "content_type_norm") == Some("html")
  }

  /** getHTMLResources: a page without source file path or offset, or whose
      lookup throws, contributes no documents. */
  function HtmlResources(resolve: (string, string) -> Option<seq<Doc>>, d: Doc): (r: seq<Doc>)
    ensures FieldValue(d, "source_file_path").None? || FieldValue(d, "source_file_offset").None? ==> r == []
    ensures FieldValue(d, "source_file_path").Some? && FieldValue(d, "source_file_offset").Some? ==>
      var found := resolve(FieldValue(d, "source_file_path").value, FieldValue(d, "source_file_offset").value);
      r == if found.Some? then found.value else []
  {
    match (FieldValue(d, "source_file_path"), FieldValue(d, "source_file_offset"))
    case (Some(path), Some(offset)) => resolve(path, offset).GetOr([])
    case _ => []
  }

  function Contribution(resolve: (string, string) -> Option<seq<Doc>>, d: Doc): seq<Doc> {
    if IsHtml(d) then HtmlResources(resolve, d) else []
  }

  /** The documents appended for the given pages, in page order. */
  function Expansion(resolve: (string, string) -> Option<seq<Doc>>, docs: seq<Doc>): seq<Doc>
    decreases |docs|
  {
    if |docs| == 0 then []
    else Expansion(resolve, docs[..|docs| - 1]) + Contribution(resolve, docs[|docs| - 1])
  }

  /** expandResources: the page's resources are appended after the original
      documents, which stay an unchanged prefix. */
  function Expand(resolve: (string, string) -> Option<seq<Doc>>, docs: seq<Doc>): (r: seq<Doc>)
    ensures |r| >= |docs| && r[..|docs|] == docs
  {
    docs + Expansion(resolve, docs)
  }

  /** When no HTML page yields resources, expansion adds nothing. */
  lemma {:induction false} ExpandNothingFound(resolve: (string, string) -> Option<seq<Doc>>, docs: seq<Doc>)
    requires forall i :: 0 <= i < |docs| && IsHtml(docs[i]) ==> HtmlResources(resolve, docs[i]) == []
    ensures Expand(resolve, docs) == docs
    decreases |docs|
  {
    if |docs| > 0 {
      ExpandNothingFound(resolve, docs[..|docs| - 1]);
    }
  }

  /** Every appended document is a resource of one of the original HTML pages. */
  lemma {:induction false} ExpansionProvenance(resolve: (string, string) -> Option<seq<Doc>>, docs: seq<Doc>)
    ensures forall x :: x in Expansion(resolve, docs) ==>
      exists i :: 0 <= i < |docs| && IsHtml(docs[i]) && x in HtmlResources(resolve, docs[i])
    decreases |docs|
  {
    if |docs| > 0 {
      var init := docs[..|docs| - 1];
      ExpansionProvenance(resolve, init);
      forall x | x in Expansion(resolve, docs)
        ensures exists i :: 0 <= i < |docs| && IsHtml(docs[i]) && x in HtmlResources(resolve, docs[i])
      {
        if x in Expansion(resolve, init) {
          var i :| 0 <= i < |init| && IsHtml(init[i]) && x in HtmlResources(resolve, init[i]);
          assert docs[i] == init[i];
        } else {
          assert x in Contribution(resolve, docs[|docs| - 1]);
        }
      }
    }
  }

  /** Expanding a concatenation of pages appends the first part's resources, then
      the second part's: the resources come in page order. */
  lemma {:induction false} ExpansionAppend(resolve: (string, string) -> Option<seq<Doc>>, a: seq<Doc>, b: seq<Doc>)
    ensures Expansion(resolve, a + b) == Expansion(resolve, a) + Expansion(resolve, b)
    decreases |b|
  {
    if |b| == 0 {
      assert a + b == a;
    } else {
      var b' := b[..|b| - 1];
      assert (a + b)[..|a + b| - 1] == a + b';
      assert (a + b)[|a + b| - 1] == b[|b| - 1];
      ExpansionAppend(resolve, a, b');
    }
  }

  /** The converse of ExpansionProvenance: every resource of every original HTML
      page is appended. */
  lemma {:induction false} ExpansionComplete(resolve: (string, string) -> Option<seq<Doc>>, docs: seq<Doc>)
    ensures forall i, x :: 0 <= i < |docs| && IsHtml(docs[i]) && x in HtmlResources(resolve, docs[i]) ==>
      x in Expansion(resolve, docs)
    decreases |docs|
  {
    if |docs| > 0 {
      var init := docs[..|docs| - 1];
      ExpansionComplete(resolve, init);
      forall i, x | 0 <= i < |docs| && IsHtml(docs[i]) && x in HtmlResources(resolve, docs[i])
        ensures x in Expansion(resolve, docs)
      {
        if i < |init| {
          assert init[i] == docs[i];
        } else {
          assert x in Contribution(resolve, docs[|docs| - 1]);
        }
      }
    }
  }

  // ---------------------------------------------------------------------------
  // removeDuplicates / getID
  // ---------------------------------------------------------------------------

  /** The outcome of the uniqueness pass; `complete` is false when a document
      without an "id" field stopped it with a NullPointerException, after the
      tracker and the counter had been updated for the documents before it. */
  datatype UniqResult = UniqResult(kept: seq<Doc>, tracker: set<string>, removed: nat, complete: bool)

  function Uniq(docs: seq<Doc>, tracker: set<string>): (r: UniqResult)
    ensures r.complete ==> |r.kept| + r.removed == |docs|
    ensures tracker <= r.tracker
    decreases |docs|
  {
    if |docs| == 0 then UniqResult([], tracker, 0, true)
    else match FieldValue(docs[0], "id")
      case None => UniqResult([], tracker, 0, false)
      case Some(id) =>
        if id in tracker then
          var rest := Uniq(docs[1..], tracker);
          UniqResult(rest.kept, rest.tracker, rest.removed + 1, rest.complete)
        else
          var rest := Uniq(docs[1..], tracker + {id});
          UniqResult([docs[0]] + rest.kept, rest.tracker, rest.removed, rest.complete)
  }

  /** One step of the uniqueness pass, at position i. */
  lemma UniqAt(docs: seq<Doc>, i: nat, tracker: set<string>)
    requires i < |docs|
    ensures var r := Uniq(docs[i..], tracker);
      match FieldValue(docs[i], "id")
      case None => r == UniqResult([], tracker, 0, false)
      case Some(id) =>
        if id in tracker then
          var n := Uniq(docs[i + 1..], tracker);
          r == UniqResult(n.kept, n.tracker, n.removed + 1, n.complete)
        else
          var n := Uniq(docs[i + 1..], tracker + {id});
          r == UniqResult([docs[i]] + n.kept, n.tracker, n.removed, n.complete)
  {
    assert docs[i..][0] == docs[i];
    assert docs[i..][1..] == docs[i + 1..];
  }

  /** The loop of removeDuplicates over one page: keeps a document whose id is not
      yet tracked and tracks it, counts the others, and stops at a document without
      an id, returning false. */
  method UniqPage(docs: seq<Doc>, start: set<string>)
    returns (unique: seq<Doc>, tracker: set<string>, removed: nat, complete: bool)
    ensures UniqResult(unique, tracker, removed, complete) == Uniq(docs, start)
  {
    unique, tracker, removed := [], start, 0;
    ghost var total := Uniq(docs, start);
    var i := 0;
    while i < |docs|
      invariant 0 <= i <= |docs|
      invariant var rest := Uniq(docs[i..], tracker);
        unique + rest.kept == total.kept && rest.tracker == total.tracker
        && removed + rest.removed == total.removed && rest.complete == total.complete
    {
      UniqAt(docs, i, tracker);
      var id := FieldValue(docs[i], "id");
      if id.None? {
        return unique, tracker, removed, false;
      }
      if id.value !in tracker {
        AppendAssoc(unique, [docs[i]], Uniq(docs[i + 1..], tracker + {id.value}).kept);
        tracker := tracker + {id.value};
        unique := unique + [docs[i]];
      } else {
        removed := removed + 1;
      }
      i := i + 1;
    }
    assert docs[i..] == [];
    complete := true;
  }

  /** The ids of the documents, as long as every document has one. */
  predicate AllHaveIds(docs: seq<Doc>) {
    forall i :: 0 <= i < |docs| ==> FieldValue(docs[i], "id").Some?
  }

  function IdSet(docs: seq<Doc>): set<string> {
    set i | 0 <= i < |docs| && FieldValue(docs[i], "id").Some? :: FieldValue(docs[i], "id").value
  }

  lemma IdSetCons(docs: seq<Doc>)
    requires |docs| > 0
    ensures IdSet(docs) == (match FieldValue(docs[0], "id") case Some(id) => {id} case None => {})
                           + IdSet(docs[1..])
  {
    var tail := docs[1..];
    var head: set<string> := match FieldValue(docs[0], "id") case Some(id) => {id} case None => {};
    forall x | x in IdSet(docs) ensures x in head + IdSet(tail) {
      var i :| 0 <= i < |docs| && FieldValue(docs[i], "id").Some? && x == FieldValue(docs[i], "id").value;
      if i > 0 { assert docs[i] == tail[i - 1]; }
    }
    forall x | x in IdSet(tail) ensures x in IdSet(docs) {
      var i :| 0 <= i < |tail| && FieldValue(tail[i], "id").Some? && x == FieldValue(tail[i], "id").value;
      assert tail[i] == docs[i + 1];
    }
  }

  lemma AllHaveIdsCons(docs: seq<Doc>)
    requires |docs| > 0
    ensures AllHaveIds(docs) <==> FieldValue(docs[0], "id").Some? && AllHaveIds(docs[1..])
  {
    if FieldValue(docs[0], "id").Some? && AllHaveIds(docs[1..]) {
      forall i | 0 <= i < |docs| ensures FieldValue(docs[i], "id").Some? {
        if i > 0 { assert docs[i] == docs[1..][i - 1]; }
      }
    }
    if AllHaveIds(docs) {
      forall i | 0 <= i < |docs[1..]| ensures FieldValue(docs[1..][i], "id").Some? {
        assert docs[1..][i] == docs[i + 1];
      }
    }
  }

  /** The pass completes exactly when every document has an id, and then the
      tracker afterwards holds exactly the ids tracked before and the page's ids. */
  lemma {:induction false} UniqComplete(docs: seq<Doc>, tracker: set<string>)
    ensures var r := Uniq(docs, tracker);
      && (r.complete <==> AllHaveIds(docs))
      && (r.complete ==> r.tracker == tracker + IdSet(docs))
    decreases |docs|
  {
    if |docs| > 0 {
      IdSetCons(docs);
      AllHaveIdsCons(docs);
      match FieldValue(docs[0], "id")
      case None =>
      case Some(id) =>
        if id in tracker {
          UniqComplete(docs[1..], tracker);
        } else {
          UniqComplete(docs[1..], tracker + {id});
        }
    }
  }

  /** The kept documents all have ids, new to the tracker and pairwise distinct,
      and the tracker afterwards holds each of them. */
  lemma {:induction false} UniqKeptFresh(docs: seq<Doc>, tracker: set<string>)
    ensures var r := Uniq(docs, tracker);
      && AllHaveIds(r.kept)
      && (forall i :: 0 <= i < |r.kept| ==> FieldValue(r.kept[i], "id").value !in tracker)
      && (forall i, j :: 0 <= i < j < |r.kept| ==>
            FieldValue(r.kept[i], "id") != FieldValue(r.kept[j], "id"))
      && (forall i :: 0 <= i < |r.kept| ==> FieldValue(r.kept[i], "id").value in r.tracker)
    decreases |docs|
  {
    if |docs| > 0 {
      match FieldValue(docs[0], "id")
      case None =>
      case Some(id) =>
        if id in tracker {
          UniqKeptFresh(docs[1..], tracker);
        } else {
          var t' := tracker + {id};
          UniqKeptFresh(docs[1..], t');
          var rest := Uniq(docs[1..], t');
          var kept := [docs[0]] + rest.kept;
          assert forall i :: 0 < i < |kept| ==> kept[i] == rest.kept[i - 1];
          assert forall i :: 0 <= i < |rest.kept| ==> FieldValue(rest.kept[i], "id") != Some(id);
        }
    }
  }

  /** The uniqueness pass in one statement. */
  lemma UniqDistinct(docs: seq<Doc>, tracker: set<string>)
    ensures var r := Uniq(docs, tracker);
      && (r.complete <==> AllHaveIds(docs))
      && AllHaveIds(r.kept)
      && (forall i :: 0 <= i < |r.kept| ==> FieldValue(r.kept[i], "id").value !in tracker)
      && (forall i, j :: 0 <= i < j < |r.kept| ==>
            FieldValue(r.kept[i], "id") != FieldValue(r.kept[j], "id"))
      && (forall i :: 0 <= i < |r.kept| ==> FieldValue(r.kept[i], "id").value in r.tracker)
      && (r.complete ==> r.tracker == tracker + IdSet(docs))
  {
    UniqComplete(docs, tracker);
    UniqKeptFresh(docs, tracker);
  }

  /** The tracker carries uniqueness across pages. */
  lemma {:induction false} UniqAppend(a: seq<Doc>, b: seq<Doc>, tracker: set<string>)
    requires AllHaveIds(a)
    ensures var ra := Uniq(a, tracker);
      var rb := Uniq(b, ra.tracker);
      ra.complete &&
      Uniq(a + b, tracker) == UniqResult(ra.kept + rb.kept, rb.tracker, ra.removed + rb.removed, rb.complete)
    decreases |a|, 1
  {
    if |a| == 0 {
      assert a + b == b;
    } else {
      UniqAppendCons(a, b, tracker);
    }
  }

  lemma {:induction false} UniqAppendCons(a: seq<Doc>, b: seq<Doc>, tracker: set<string>)
    requires |a| > 0 && AllHaveIds(a)
    ensures var ra := Uniq(a, tracker);
      var rb := Uniq(b, ra.tracker);
      ra.complete &&
      Uniq(a + b, tracker) == UniqResult(ra.kept + rb.kept, rb.tracker, ra.removed + rb.removed, rb.complete)
    decreases |a|, 0
  {
    assert (a + b)[0] == a[0] && (a + b)[1..] == a[1..] + b;
    var id := FieldValue(a[0], "id").value;
    assert AllHaveIds(a[1..]) by {
      forall i | 0 <= i < |a[1..]| ensures FieldValue(a[1..][i], "id").Some? {
        assert a[1..][i] == a[i + 1];
      }
    }
    var t := if id in tracker then tracker else tracker + {id};
    UniqAppend(a[1..], b, t);
    if id !in tracker {
      var ra := Uniq(a[1..], t);
      AppendAssoc([a[0]], ra.kept, Uniq(b, ra.tracker).kept);
    }
  }

  /** First occurrence wins: a document with an id is kept exactly when its id was
      neither tracked before nor carried by an earlier document. */
  lemma FirstOccurrenceWins(a: seq<Doc>, d: Doc, tracker: set<string>)
    requires AllHaveIds(a) && FieldValue(d, "id").Some?
    ensures var id := FieldValue(d, "id").value;
      Uniq(a + [d], tracker).kept
        == Uniq(a, tracker).kept + (if id in tracker + IdSet(a) then [] else [d])
  {
    UniqAppend(a, [d], tracker);
    UniqDistinct(a, tracker);
    assert [d][1..] == [];
  }

  /** The ceiling maxUnique is never consulted: the tracker outgrows it. */
  lemma MaxUniqueNotEnforced(d1: Doc, d2: Doc)
    requires FieldValue(d1, "id") == Some("a") && FieldValue(d2, "id") == Some("b")
    ensures var r := Uniq([d1, d2], {});
      r.complete && r.kept == [d1, d2] && |r.tracker| == 2
  {
    assert [d1, d2][1..] == [d2];
    assert [d2][1..] == [];
    assert Uniq([], {"a", "b"}) == UniqResult([], {"a", "b"}, 0, true);
    assert {"a"} + {"b"} == {"a", "b"};
    assert Uniq([d2], {"a"}) == UniqResult([d2], {"a", "b"}, 0, true);
    assert |{"a", "b"}| == 2;
  }

  // ---------------------------------------------------------------------------
  // nextPageUndelivered
  // ---------------------------------------------------------------------------

  datatype Split = Split(batch: Option<seq<Doc>>, rest: Option<seq<Doc>>)

  /** A null buffer or one shorter than the page size is returned whole and the
      buffer becomes null; otherwise exactly pageSize documents are returned and
      the rest is kept. A negative page size makes subList throw. */
  function PageSplit(buf: Option<seq<Doc>>, pageSize: int): (r: Result<Split>)
    ensures r.Err? <==> buf.Some? && |buf.value| >= pageSize && pageSize < 0
    ensures r.Err? ==> r.error == IllegalArgument
    ensures r.Ok? && (buf.None? || |buf.value| < pageSize) ==> r.value == Split(buf, None)
    ensures r.Ok? && buf.Some? && pageSize >= 0 ==>
      r.value.batch.Some? && |r.value.batch.value| <= pageSize
    ensures r.Ok? && buf.Some? ==> (r.value.batch.Some?
      && r.value.batch.value + r.value.rest.GetOr([]) == buf.value
      && (|buf.value| >= pageSize ==> |r.value.batch.value| == pageSize && r.value.rest.Some?))
  {
    if buf.None? || |buf.value| < pageSize then Ok(Split(buf, None))
    else if pageSize < 0 then Err(IllegalArgument)
    else
      assert buf.value[..pageSize] + buf.value[pageSize..] == buf.value;
      Ok(Split(Some(buf.value[..pageSize]), Some(buf.value[pageSize..])))
  }

  // ---------------------------------------------------------------------------
  // nextDocuments
  // ---------------------------------------------------------------------------

  function ApplyDedup(field: string, st: State): State
    requires st.undelivered.Some?
  {
    var r := Dedup(st.undelivered.value, field, st.lastDedupValue);
    st.(undelivered := Some(r.kept), lastDedupValue := r.last,
        duplicatesRemoved := st.duplicatesRemoved + r.removed)
  }

  function ApplyExpand(resolve: (string, string) -> Option<seq<Doc>>, st: State): State
    requires st.undelivered.Some?
  {
    st.(undelivered := Some(Expand(resolve, st.undelivered.value)))
  }

  /** After a failed pass the buffer is left as it was. */
  function ApplyUniq(st: State): State
    requires st.undelivered.Some?
  {
    var r := Uniq(st.undelivered.value, st.uniqueTracker);
    st.(undelivered := if r.complete then Some(r.kept) else st.undelivered,
        uniqueTracker := r.tracker,
        duplicatesRemoved := st.duplicatesRemoved + r.removed)
  }

  datatype StepResult = Return(batch: Batch, state: State) | Continue(state: State)

  /** One pass of the fetch loop: deliver from the buffer if it holds documents,
      otherwise query at the cursor, move the cursor, finish when the reply ends the
      stream, or run the fetched page through deduplication, expansion and
      uniqueness. */
  function Step(env: Env, t: EndTest, st: State): (r: StepResult)
    ensures r.Continue? ==> (env.backend(st.cursorMark).Answer?
      && !Ends(t, env.backend(st.cursorMark).response)
      && r.state.cursorMark == env.backend(st.cursorMark).response.nextCursorMark
      && r.state.hasFinished == st.hasFinished)
    ensures r.Return? && r.batch.NoMore? ==> (r.state.hasFinished
      && env.backend(st.cursorMark).Answer? && Ends(t, env.backend(st.cursorMark).response)
      && env.backend(st.cursorMark).response.nextCursorMark == r.state.cursorMark)
    ensures r.Return? && r.batch.Docs? ==> (st.undelivered.Some? && |st.undelivered.value| > 0
      && r.batch.docs + r.state.undelivered.GetOr([]) == st.undelivered.value
      && (env.settings.pageSize >= 1 ==> 1 <= |r.batch.docs| <= env.settings.pageSize))
  {
    var s := env.settings;
    if st.undelivered.Some? && |st.undelivered.value| > 0 then
      match PageSplit(st.undelivered, s.pageSize)
      case Err(e) => Return(Failure(e), st)
      case Ok(split) => Return(Docs(split.batch.value), st.(undelivered := split.rest))
    else
      match env.backend(st.cursorMark)
      case TransportFailure => Return(Failure(SolrServer), st)
      case Answer(rsp) =>
        var st1 := st.(cursorMark := rsp.nextCursorMark);
        if Ends(t, rsp) then Return(NoMore, st1.(hasFinished := true))
        else
          var st2 := st1.(undelivered := Some(rsp.results));
          var st3 := if s.dedupField.Some? then ApplyDedup(s.dedupField.value, st2) else st2;
          var st4 := if s.expandResources then ApplyExpand(env.resolve, st3) else st3;
          if s.ensureUnique then
            var st5 := ApplyUniq(st4);
            if Uniq(st4.undelivered.value, st4.uniqueTracker).complete then Continue(st5)
            else Return(Failure(NullPointer), st5)
          else Continue(st4)
  }

  datatype Outcome = Outcome(batch: Batch, state: State)

  /** The fetch loop run while `hasFinished == runWhile`: the documented loop runs
      while the stream has not finished (`runWhile == false`); the loop as written
      runs while it has (`runWhile == true`). The ranking is needed only when the
      loop body runs at all. */
  ghost function Loop(env: Env, rank: string -> nat, runWhile: bool, t: EndTest, st: State): Outcome
    requires st.hasFinished == runWhile ==> WellFounded(env.backend, rank, t)
    decreases rank(st.cursorMark)
  {
    if st.hasFinished != runWhile then Outcome(NoMore, st)
    else match Step(env, t, st)
      case Return(b, s') => Outcome(b, s')
      case Continue(s') => Loop(env, rank, runWhile, t, s')
  }

  /** nextDocuments as documented, with the corrected end test: loops while the
      stream has not finished, and finishes on `numFound == 0` or an empty page. */
  ghost function NextDocumentsSpec(env: Env, rank: string -> nat, st: State): Outcome
    requires WellFounded(env.backend, rank, EmptyPage)
  {
    Loop(env, rank, false, EmptyPage, st)
  }

  /** nextDocuments as written: `while (hasFinished)`, finishing on `numFound == 0`. */
  ghost function NextDocumentsAsWritten(env: Env, rank: string -> nat, st: State): (r: Outcome)
    requires st.hasFinished ==> WellFounded(env.backend, rank, NumFoundZero)
    ensures !st.hasFinished ==> r == Outcome(NoMore, st)
  {
    Loop(env, rank, true, NumFoundZero, st)
  }

  /** Null is returned exactly when the stream has finished; a stream that has
      finished stays finished and its state does not change; finishing takes a
      reply that ends the stream, whose next cursor is the stream's cursor. */
  lemma {:induction false} NoMoreIffFinished(env: Env, rank: string -> nat, st: State)
    requires WellFounded(env.backend, rank, EmptyPage)
    ensures var o := NextDocumentsSpec(env, rank, st);
      && (o.batch.NoMore? <==> o.state.hasFinished)
      && (st.hasFinished ==> o == Outcome(NoMore, st))
      && (o.state.hasFinished && !st.hasFinished ==>
            exists c :: env.backend(c).Answer? && Ends(EmptyPage, env.backend(c).response)
              && env.backend(c).response.nextCursorMark == o.state.cursorMark)
    decreases rank(st.cursorMark)
  {
    if !st.hasFinished {
      match Step(env, EmptyPage, st)
      case Return(b, s') =>
        if b.NoMore? {
          assert env.backend(st.cursorMark).Answer?;
        }
      case Continue(s') => NoMoreIffFinished(env, rank, s');
    }
  }

  /** Every batch holds at least one and at most pageSize documents. */
  lemma {:induction false} BatchSize(env: Env, rank: string -> nat, st: State)
    requires WellFounded(env.backend, rank, EmptyPage)
    requires env.settings.pageSize >= 1
    ensures var o := NextDocumentsSpec(env, rank, st);
      o.batch.Docs? ==> 1 <= |o.batch.docs| <= env.settings.pageSize
    decreases rank(st.cursorMark)
  {
    if !st.hasFinished {
      match Step(env, EmptyPage, st)
      case Return(b, s') =>
      case Continue(s') => BatchSize(env, rank, s');
    }
  }

  /** As written, the loop body never runs on a fresh stream: the first call
      returns null without querying and nothing changes. */
  lemma AsWrittenFreshStreamIsEmpty(env: Env, rank: string -> nat)
    ensures NextDocumentsAsWritten(env, rank, InitialState(env.settings))
         == Outcome(NoMore, InitialState(env.settings))
  {
  }

  /** With the documented guard, a fresh stream whose first page holds documents
      and no pipeline stage hands out the first page. */
  lemma DocumentedLoopDelivers(env: Env, rank: string -> nat, results: seq<Doc>, numFound: int, next: string)
    requires WellFounded(env.backend, rank, EmptyPage)
    requires env.settings.pageSize >= |results| > 0 && numFound != 0
    requires env.settings.dedupField.None? && !env.settings.expandResources && !env.settings.ensureUnique
    requires env.backend(env.settings.cursorMark) == Answer(Response(results, numFound, next))
    ensures NextDocumentsSpec(env, rank, InitialState(env.settings)).batch == Docs(results)
  {
    var st := InitialState(env.settings);
    var st' := st.(cursorMark := next, undelivered := Some(results));
    assert Step(env, EmptyPage, st) == Continue(st');
    assert results[..|results|] == results;
    var split := PageSplit(st'.undelivered, env.settings.pageSize);
    assert split.Ok? && split.value.batch == Some(results);
    assert Step(env, EmptyPage, st') == Return(Docs(results), st'.(undelivered := split.value.rest));
    assert Loop(env, rank, false, EmptyPage, st) == Loop(env, rank, false, EmptyPage, st');
  }

  // ---------------------------------------------------------------------------
  // A Solr-like index
  // ---------------------------------------------------------------------------

  function Marks(k: nat): (r: string)
    ensures |r| == k
  {
    seq(k, _ => '*')
  }

  function Min(a: int, b: int): int {
    if a <= b then a else b
  }

  /** An index over `docs` answering `rows` documents per page, as Solr's cursor
      paging does. A cursor mark stands for the number of documents already passed,
      written as its length. Every reply reports the total number of hits; past the
      last page the reply is empty and repeats the cursor. */
  function SolrIndex(docs: seq<Doc>, rows: nat): string -> Reply {
    c => var from := Min(|c|, |docs|);
      var to := Min(from + rows, |docs|);
      Answer(Response(docs[from..to], |docs|, c + Marks(to - from)))
  }

  /** The number of documents after a cursor. */
  function SolrRank(docs: seq<Doc>): string -> nat {
    c => |docs| - Min(|c|, |docs|)
  }

  /** With the end test as written, no ranking exists for a Solr index with a hit:
      the reply past the last page reports the total, repeats the cursor, and so
      never ends the stream. */
  lemma SolrIndexHasNoRankAsWritten(docs: seq<Doc>, rows: nat, rank: string -> nat)
    requires |docs| > 0
    ensures !WellFounded(SolrIndex(docs, rows), rank, NumFoundZero)
  {
    var c := Marks(|docs|);
    var rsp := SolrIndex(docs, rows)(c).response;
    assert rsp.results == [] && rsp.numFound == |docs|;
    assert rsp.nextCursorMark == c + "" == c;
  }

  /** With the end test as written, a stream at that reply queries the same cursor
      again and again: one round leaves a state that the next round reproduces. */
  lemma AsWrittenEndSpins(env: Env, st: State, total: int)
    requires total != 0
    requires env.backend(st.cursorMark) == Answer(Response([], total, st.cursorMark))
    requires st.undelivered.None? || st.undelivered == Some([])
    ensures var st' := st.(undelivered := Some([]));
      Step(env, NumFoundZero, st) == Continue(st') && Step(env, NumFoundZero, st') == Continue(st')
  {
    assert Dedup([], env.settings.dedupField.GetOr(""), st.lastDedupValue)
        == DedupResult([], st.lastDedupValue, 0);
    assert Expand(env.resolve, []) == [];
    assert Uniq([], st.uniqueTracker) == UniqResult([], st.uniqueTracker, 0, true);
  }

  /** With the corrected end test, the cursor ranking by documents left meets the
      termination hypothesis for every Solr index. */
  lemma SolrIndexRanked(docs: seq<Doc>, rows: nat)
    ensures WellFounded(SolrIndex(docs, rows), SolrRank(docs), EmptyPage)
  {
    var backend := SolrIndex(docs, rows);
    forall c | backend(c).Answer? && !Ends(EmptyPage, backend(c).response)
      ensures SolrRank(docs)(backend(c).response.nextCursorMark) < SolrRank(docs)(c)
    {
      var from := Min(|c|, |docs|);
      var to := Min(from + rows, |docs|);
      assert |backend(c).response.nextCursorMark| == |c| + (to - from);
    }
  }

  /** With the corrected loop and no pipeline stage, each call on a Solr index hands
      out the next page and moves the cursor past it, and a call at the end returns
      null and finishes the stream. */
  lemma SolrPageDelivered(env: Env, rank: string -> nat, st: State, docs: seq<Doc>, rows: nat)
    requires env.backend == SolrIndex(docs, rows) && env.settings.pageSize == rows >= 1
    requires WellFounded(env.backend, rank, EmptyPage)
    requires env.settings.dedupField.None? && !env.settings.expandResources && !env.settings.ensureUnique
    requires !st.hasFinished && st.undelivered.GetOr([]) == []
    ensures var o := NextDocumentsSpec(env, rank, st);
      var p := |st.cursorMark|;
      && (p >= |docs| ==> o == Outcome(NoMore, st.(hasFinished := true)))
      && (p < |docs| ==>
            && o.batch == Docs(docs[p..Min(p + rows, |docs|)])
            && |o.state.cursorMark| == Min(p + rows, |docs|)
            && !o.state.hasFinished && o.state.undelivered.GetOr([]) == [])
  {
    if |st.cursorMark| >= |docs| {
      SolrPageAtEnd(env, rank, st, docs, rows);
    } else {
      SolrPageInside(env, rank, st, docs, rows);
    }
  }

  lemma SolrPageAtEnd(env: Env, rank: string -> nat, st: State, docs: seq<Doc>, rows: nat)
    requires env.backend == SolrIndex(docs, rows) && env.settings.pageSize == rows >= 1
    requires WellFounded(env.backend, rank, EmptyPage)
    requires env.settings.dedupField.None? && !env.settings.expandResources && !env.settings.ensureUnique
    requires !st.hasFinished && st.undelivered.GetOr([]) == []
    requires |st.cursorMark| >= |docs|
    ensures NextDocumentsSpec(env, rank, st) == Outcome(NoMore, st.(hasFinished := true))
  {
    var rsp := env.backend(st.cursorMark).response;
    assert rsp == Response([], |docs|, st.cursorMark + Marks(0));
    assert rsp.nextCursorMark == st.cursorMark;
    assert Step(env, EmptyPage, st) == Return(NoMore, st.(hasFinished := true));
  }

  lemma SolrPageInside(env: Env, rank: string -> nat, st: State, docs: seq<Doc>, rows: nat)
    requires env.backend == SolrIndex(docs, rows) && env.settings.pageSize == rows >= 1
    requires WellFounded(env.backend, rank, EmptyPage)
    requires env.settings.dedupField.None? && !env.settings.expandResources && !env.settings.ensureUnique
    requires !st.hasFinished && st.undelivered.GetOr([]) == []
    requires |st.cursorMark| < |docs|
    ensures var o := NextDocumentsSpec(env, rank, st);
      var p := |st.cursorMark|;
      && o.batch == Docs(docs[p..Min(p + rows, |docs|)])
      && |o.state.cursorMark| == Min(p + rows, |docs|)
      && !o.state.hasFinished && o.state.undelivered.GetOr([]) == []
  {
    var p := |st.cursorMark|;
    var to := Min(p + rows, |docs|);
    var rsp := env.backend(st.cursorMark).response;
    assert rsp == Response(docs[p..to], |docs|, st.cursorMark + Marks(to - p));
    var st' := st.(cursorMark := rsp.nextCursorMark, undelivered := Some(rsp.results));
    assert Step(env, EmptyPage, st) == Continue(st');
    assert |rsp.results| <= rows;
    assert rsp.results[..|rsp.results|] == rsp.results;
    var split := PageSplit(st'.undelivered, rows);
    assert split.Ok? && split.value.batch == Some(rsp.results);
    assert Step(env, EmptyPage, st') == Return(Docs(rsp.results), st'.(undelivered := split.value.rest));
    assert Loop(env, rank, false, EmptyPage, st) == Loop(env, rank, false, EmptyPage, st');
  }

  // ---------------------------------------------------------------------------
  // The engine
  // ---------------------------------------------------------------------------

  class GenericStreaming {
    const env: Env
    ghost const rank: string -> nat

    var cursorMark: string
    var undelivered: Option<seq<Doc>>
    var hasFinished: bool
    var duplicatesRemoved: int
    var lastDedupValue: Option<string>
    var uniqueTracker: set<string>

    function Snapshot(): State
      reads this
    {
      State(cursorMark, undelivered, hasFinished, duplicatesRemoved, lastDedupValue, uniqueTracker)
    }

    ghost predicate Valid() {
      WellFounded(env.backend, rank, EmptyPage)
    }

    /** A stream over the normalised settings, positioned at their cursor. */
    constructor (env: Env, ghost rank: string -> nat)
      requires WellFounded(env.backend, rank, EmptyPage)
      ensures Valid() && this.env == env && this.rank == rank
      ensures Snapshot() == InitialState(env.settings)
    {
      this.env, this.rank := env, rank;
      cursorMark := env.settings.cursorMark;
      undelivered, hasFinished, duplicatesRemoved := None, false, 0;
      lastDedupValue, uniqueTracker := None, {};
    }

    method StreamDeduplicate(field: string)
      requires undelivered.Some?
      modifies this
      ensures Snapshot() == ApplyDedup(field, old(Snapshot()))
    {
      var unique, last, removed := DedupPage(undelivered.value, field, lastDedupValue);
      undelivered, lastDedupValue, duplicatesRemoved := Some(unique), last, duplicatesRemoved + removed;
    }

    method ExpandResources()
      requires undelivered.Some?
      modifies this
      ensures Snapshot() == ApplyExpand(env.resolve, old(Snapshot()))
    {
      var documents := undelivered.value;
      var initialSize := |documents|;
      ghost var original := documents;
      for i := 0 to initialSize
        invariant documents == original + Expansion(env.resolve, original[..i])
      {
        assert original[..i + 1][..i] == original[..i];
        assert documents[i] == original[i];
        if FieldValue(documents[i], "content_type_norm") == Some("html") {
          documents := documents + HtmlResources(env.resolve, documents[i]);
        }
      }
      assert original[..initialSize] == original;
      undelivered := Some(documents);
    }

    /** Returns false when a document without an id stopped the pass. */
    method RemoveDuplicates() returns (complete: bool)
      requires undelivered.Some?
      modifies this
      ensures Snapshot() == ApplyUniq(old(Snapshot()))
      ensures complete == Uniq(old(undelivered.value), old(uniqueTracker)).complete
    {
      var unique, tracker, removed;
      unique, tracker, removed, complete := UniqPage(undelivered.value, uniqueTracker);
      uniqueTracker, duplicatesRemoved := tracker, duplicatesRemoved + removed;
      if complete {
        undelivered := Some(unique);
      }
    }

    method NextPageUndelivered() returns (r: Result<Option<seq<Doc>>>)
      modifies this
      ensures var p := PageSplit(old(undelivered), env.settings.pageSize);
        && (p.Err? ==> r == Err(p.error) && Snapshot() == old(Snapshot()))
        && (p.Ok? ==> r == Ok(p.value.batch) && Snapshot() == old(Snapshot()).(undelivered := p.value.rest))
    {
      var pageSize := env.settings.pageSize;
      if undelivered.None? || |undelivered.value| < pageSize {
        var oldUndelivered := undelivered;
        undelivered := None;
        return Ok(oldUndelivered);
      }
      if pageSize < 0 {
        return Err(IllegalArgument);
      }
      var batch := undelivered.value[..pageSize];
      var newUndelivered := undelivered.value[pageSize..];
      undelivered := Some(newUndelivered);
      return Ok(Some(batch));
    }

    /** nextDocuments with the documented guard and the corrected end test. */
    method NextDocuments() returns (b: Batch)
      requires Valid()
      modifies this
      ensures Outcome(b, Snapshot()) == NextDocumentsSpec(env, rank, old(Snapshot()))
    {
      ghost var target := Loop(env, rank, false, EmptyPage, Snapshot());
      while !hasFinished
        invariant Loop(env, rank, false, EmptyPage, Snapshot()) == target
        decreases rank(cursorMark)
      {
        ghost var st := Snapshot();
        if undelivered.Some? && |undelivered.value| > 0 {
          var page := NextPageUndelivered();
          match page
          case Err(e) => { return Failure(e); }
          case Ok(batch) => { return Docs(batch.value); }
        }
        var reply := env.backend(cursorMark);
        if reply.TransportFailure? {
          return Failure(SolrServer);
        }
        cursorMark := reply.response.nextCursorMark;
        if reply.response.numFound == 0 || |reply.response.results| == 0 {
          hasFinished := true;
          return NoMore;
        }
        undelivered := Some(reply.response.results);
        if env.settings.dedupField.Some? {
          StreamDeduplicate(env.settings.dedupField.value);
        }
        if env.settings.expandResources {
          ExpandResources();
        }
        if env.settings.ensureUnique {
          var complete := RemoveDuplicates();
          if !complete {
            return Failure(NullPointer);
          }
        }
        assert Step(env, EmptyPage, st) == Continue(Snapshot());
      }
      return NoMore;
    }
  }

  // ---------------------------------------------------------------------------
  // The iterator
  // ---------------------------------------------------------------------------

  /** The iterator's own state: the current batch, the index into it, and (as a
      ghost) every document of the batches received so far. */
  datatype Cursor = Cursor(list: Option<seq<Doc>>, index: int, received: seq<Doc>)

  predicate InBounds(c: Cursor) {
    c.list.Some? ==> 0 <= c.index <= |c.list.value|
  }

  /** hasNext on cursor `c` over stream state `st`: the answer, the new cursor and
      the new stream state. */
  ghost function HasNextSpec(env: Env, rank: string -> nat, c: Cursor, st: State): (r: (Result<bool>, Cursor, State))
    requires WellFounded(env.backend, rank, EmptyPage) && InBounds(c)
    ensures InBounds(r.1)
    ensures r.0.Ok? ==> (r.0.value <==> r.1.list.Some?) && (r.0.value ==> r.1.index < |r.1.list.value|)
  {
    var exhausted := c.list.None? || c.index == |c.list.value|;
    if !exhausted then (Ok(true), c, st)
    else if st.hasFinished then (Ok(false), c.(list := None), st)
    else
      var o := NextDocumentsSpec(env, rank, st);
      match o.batch
      case Failure(_) => (Err(Runtime), c, o.state)
      case NoMore => (Ok(false), c.(list := None, index := 0), o.state)
      case Docs(docs) =>
        var got := c.(index := 0, received := c.received + docs);
        if |docs| > 0 then (Ok(true), got.(list := Some(docs)), o.state)
        else (Ok(false), got.(list := None), o.state)
  }

  /** next: hasNext, then the element at the index, which moves on by one. */
  ghost function NextSpec(env: Env, rank: string -> nat, c: Cursor, st: State): (r: (Result<Doc>, Cursor, State))
    requires WellFounded(env.backend, rank, EmptyPage) && InBounds(c)
    ensures InBounds(r.1)
  {
    var (h, c', st') := HasNextSpec(env, rank, c, st);
    if h.Err? then (Err(Runtime), c', st')
    else if !h.value then (Err(NoSuchElement), c', st')
    else (Ok(c'.list.value[c'.index]), c'.(index := c'.index + 1), st')
  }

  /** A new batch is requested only when the current one is used up and the stream
      has not finished; a failure leaves the cursor as it was; a batch is received
      whole and becomes the list unless it is empty. */
  lemma HasNextCases(env: Env, rank: string -> nat, c: Cursor, st: State)
    requires WellFounded(env.backend, rank, EmptyPage) && InBounds(c)
    ensures var (r, c', st') := HasNextSpec(env, rank, c, st);
      var exhausted := c.list.None? || c.index == |c.list.value|;
      && (r.Err? ==> c'.list == c.list && c'.index == c.index)
      && (!exhausted ==> r == Ok(true) && c' == c && st' == st)
      && (exhausted && st.hasFinished ==> r == Ok(false) && c'.list.None? && c'.received == c.received && st' == st)
      && (exhausted && !st.hasFinished ==>
            var o := NextDocumentsSpec(env, rank, st);
            st' == o.state
            && (o.batch.Failure? ==> r == Err(Runtime) && c'.received == c.received)
            && (o.batch.NoMore? ==> r == Ok(false) && c'.list.None? && c'.received == c.received)
            && (o.batch.Docs? ==> (c'.received == c.received + o.batch.docs
                  && r == Ok(|o.batch.docs| > 0)
                  && (if |o.batch.docs| > 0 then c'.list == Some(o.batch.docs) && c'.index == 0
                      else c'.list.None?))))
  {
  }

  /** next returns the element at the current index while the list has one, without
      touching the stream; otherwise the first document of the batch hasNext fetches,
      RuntimeException when that fetch fails and NoSuchElementException when the
      stream has finished or the fetch brings nothing. */
  lemma NextCases(env: Env, rank: string -> nat, c: Cursor, st: State)
    requires WellFounded(env.backend, rank, EmptyPage) && InBounds(c)
    ensures var (r, c', st') := NextSpec(env, rank, c, st);
      var more := c.list.Some? && c.index < |c.list.value|;
      && (more ==> r == Ok(c.list.value[c.index]) && st' == st && c'.received == c.received)
      && (!more && st.hasFinished ==> r == Err(NoSuchElement) && st' == st && c'.received == c.received)
      && (!more && !st.hasFinished ==>
            var o := NextDocumentsSpec(env, rank, st);
            st' == o.state
            && (o.batch.Failure? ==> r == Err(Runtime) && c'.received == c.received)
            && (o.batch.NoMore? ==> r == Err(NoSuchElement) && c'.received == c.received)
            && (o.batch.Docs? ==> (c'.received == c.received + o.batch.docs
                  && r == if |o.batch.docs| > 0 then Ok(o.batch.docs[0]) else Err(NoSuchElement))))
  {
    HasNextCases(env, rank, c, st);
  }

  class DocIterator {
    const stream: GenericStreaming
    var list: Option<seq<Doc>>
    var index: int
    /** The documents handed out so far, and all documents of the batches received. */
    ghost var delivered: seq<Doc>
    ghost var received: seq<Doc>

    ghost function Current(): Cursor
      reads this
    {
      Cursor(list, index, received)
    }

    /** Every received document is handed out once, in order: the delivered ones
        followed by the rest of the current batch. */
    ghost predicate Valid()
      reads this
    {
      match list
      case Some(l) => 0 <= index <= |l| && received == delivered + l[index..]
      case None => received == delivered
    }

    constructor (stream: GenericStreaming)
      ensures this.stream == stream && list.None? && index == 0
      ensures delivered == [] && received == [] && Valid()
    {
      this.stream := stream;
      list, index := None, 0;
      delivered, received := [], [];
    }

    /** hasNext: fetches a batch when the current one is used up and the stream
        has not finished; a failed fetch becomes a RuntimeException and leaves the
        iterator as it was. */
    method HasNext() returns (r: Result<bool>)
      requires Valid() && stream.Valid()
      modifies this, stream
      ensures Valid() && delivered == old(delivered)
      ensures (r, Current(), stream.Snapshot()) == HasNextSpec(stream.env, stream.rank, old(Current()), old(stream.Snapshot()))
    {
      if (list.None? || index == |list.value|) && !stream.hasFinished {
        var b := stream.NextDocuments();
        match b
        case Failure(_) => { return Err(Runtime); }
        case NoMore => { list, index := None, 0; }
        case Docs(docs) =>
          {
            list, index := Some(docs), 0;
            received := received + docs;
          }
      }
      if list.Some? && index == |list.value| {
        list := None;
      }
      return Ok(list.Some?);
    }

    /** next: the next document in batch order, or NoSuchElementException when
        hasNext is false. When the current batch is used up, the document handed out
        is the first of the batch hasNext fetched. */
    method Next() returns (r: Result<Doc>)
      requires Valid() && stream.Valid()
      modifies this, stream
      ensures Valid()
      ensures r.Ok? ==> delivered == old(delivered) + [r.value]
      ensures r.Err? ==> delivered == old(delivered)
      ensures (r, Current(), stream.Snapshot()) == NextSpec(stream.env, stream.rank, old(Current()), old(stream.Snapshot()))
    {
      var h := HasNext();
      if h.Err? {
        return Err(Runtime);
      }
      if !h.value {
        return Err(NoSuchElement);
      }
      var d := list.value[index];
      assert list.value[index..] == [d] + list.value[index + 1..];
      index := index + 1;
      delivered := delivered + [d];
      return Ok(d);
    }
  }
}
