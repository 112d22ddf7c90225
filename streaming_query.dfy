/** Request normalisation of the cursor-paged streaming engine: the base query the
    convenience constructors build, the time-proximity variant with its ISO time
    check, and the advanced constructor that fixes the field list, the sort
    tie-breaker, the cursor and the page size. */
module StreamingQuery {
  import opened Util

  const DEFAULT_PAGESIZE: int := 1000
  const DEFAULT_SORT: string := "score desc, id asc"
  const DEFAULT_MAX_UNIQUE: int := 5000000
  const CURSOR_MARK_START: string := "*"
  const NEWEST_ORIGO: string := "9999-12-31T23:59:59Z"
  const OLDEST_ORIGO: string := "0001-01-01T00:00:01Z"

  /** The parameters of a Solr query that the engine reads or sets; `None` is a
      parameter that has not been set. */
  datatype SolrQuery = SolrQuery(
    q: string,
    fl: Option<string>,
    sort: Option<string>,
    rows: Option<int>,
    cursorMark: Option<string>,
    filterQueries: seq<string>)

  /** The state fixed by the advanced constructor. */
  datatype Settings = Settings(
    q: string,
    filterQueries: seq<string>,
    fl: set<string>,
    sort: string,
    pageSize: int,
    cursorMark: string,
    expandResources: bool,
    ensureUnique: bool,
    maxUnique: int,
    dedupField: Option<string>)

  // ---------------------------------------------------------------------------
  // buildBaseQuery
  // ---------------------------------------------------------------------------

  /** The filter queries that are not null, in order. */
  function NonNullFilters(fqs: seq<Option<string>>): (r: seq<string>)
    ensures |r| <= |fqs|
    ensures forall f :: f in r <==> Some(f) in fqs
    decreases |fqs|
  {
    if |fqs| == 0 then []
    else
      var rest := NonNullFilters(fqs[1..]);
      assert forall o :: o in fqs <==> o == fqs[0] || o in fqs[1..];
      match fqs[0]
      case Some(f) => [f] + rest
      case None => rest
  }

  /** Keeping the non-null filters commutes with concatenation: order and
      repetitions are kept. */
  lemma {:induction false} NonNullFiltersAppend(a: seq<Option<string>>, b: seq<Option<string>>)
    ensures NonNullFilters(a + b) == NonNullFilters(a) + NonNullFilters(b)
    decreases |a|
  {
    if |a| == 0 {
      assert a + b == b;
    } else {
      var head := if a[0].Some? then [a[0].value] else [];
      NonNullFiltersAppend(a[1..], b);
      assert a + b == [a[0]] + (a[1..] + b);
      NonNullFiltersCons(a[0], a[1..] + b);
      assert [a[0]] + a[1..] == a;
      NonNullFiltersCons(a[0], a[1..]);
      AppendAssoc(head, NonNullFilters(a[1..]), NonNullFilters(b));
    }
  }

  lemma NonNullFiltersCons(x: Option<string>, rest: seq<Option<string>>)
    ensures NonNullFilters([x] + rest) == (if x.Some? then [x.value] else []) + NonNullFilters(rest)
  {
    assert ([x] + rest)[0] == x && ([x] + rest)[1..] == rest;
  }

  /** Without a null filter every filter is added, each in its own position. */
  lemma {:induction false} NonNullFiltersAllPresent(fqs: seq<Option<string>>)
    requires forall k :: 0 <= k < |fqs| ==> fqs[k].Some?
    ensures |NonNullFilters(fqs)| == |fqs|
    ensures forall k :: 0 <= k < |fqs| ==> NonNullFilters(fqs)[k] == fqs[k].value
    decreases |fqs|
  {
    if |fqs| > 0 {
      NonNullFiltersAllPresent(fqs[1..]);
      var r := NonNullFilters(fqs);
      assert r == [fqs[0].value] + NonNullFilters(fqs[1..]);
      forall k | 0 <= k < |fqs|
        ensures r[k] == fqs[k].value
      {
        if k > 0 {
          assert fqs[1..][k - 1] == fqs[k];
        }
      }
    }
  }

  /** The filter loop of buildBaseQuery: each non-null filter is added in turn. */
  method AddFilterQueries(filterQueries: seq<Option<string>>) returns (added: seq<string>)
    ensures added == NonNullFilters(filterQueries)
  {
    added := [];
    for i := 0 to |filterQueries|
      invariant added == NonNullFilters(filterQueries[..i])
    {
      var filter := filterQueries[i];
      NonNullFiltersAppend(filterQueries[..i], [filter]);
      assert filterQueries[..i + 1] == filterQueries[..i] + [filter];
      assert [filter][1..] == [];
      if filter.Some? {
        added := added + [filter.value];
      }
    }
    assert filterQueries[..|filterQueries|] == filterQueries;
  }

  /** buildBaseQuery: fl is the comma-joined field list (null when the list is
      null), the sort and the page size are set, null filters are skipped and no
      cursor is set yet. */
  function BuildBaseQuery(pageSize: int, fields: Option<seq<string>>, query: string,
                          filterQueries: seq<Option<string>>, sort: string): (r: SolrQuery)
    ensures r.fl.Some? <==> fields.Some?
    ensures fields.Some? ==> r.fl == Some(Join(fields.value, ","))
    ensures r.sort == Some(sort) && r.rows == Some(pageSize) && r.cursorMark.None?
    ensures r.q == query && r.filterQueries == NonNullFilters(filterQueries)
  {
    var fl := if fields.Some? then Some(Join(fields.value, ",")) else None;
    SolrQuery(query, fl, Some(sort), Some(pageSize), None, NonNullFilters(filterQueries))
  }

  // ---------------------------------------------------------------------------
  // Splitting fl with the regular expression ", *"
  // ---------------------------------------------------------------------------

  function DropSpaces(s: string): (r: string)
    ensures |r| <= |s|
    decreases |s|
  {
    if |s| > 0 && s[0] == ' ' then DropSpaces(s[1..]) else s
  }

  /** The pieces between the matches of ", *": a piece after a comma loses its
      leading spaces. Always at least one piece. */
  function Pieces(s: string): (r: seq<string>)
    ensures |r| >= 1
    ensures forall k :: 0 <= k < |r| ==> ',' !in r[k]
    decreases |s|
  {
    if |s| == 0 then [""]
    else if s[0] == ',' then [""] + Pieces(DropSpaces(s[1..]))
    else
      var p := Pieces(s[1..]);
      [[s[0]] + p[0]] + p[1..]
  }

  function DropTrailingEmpty(p: seq<string>): (r: seq<string>)
    ensures |r| <= |p| && r == p[..|r|]
    ensures |r| > 0 ==> r[|r| - 1] != ""
    decreases |p|
  {
    if |p| > 0 && p[|p| - 1] == "" then DropTrailingEmpty(p[..|p| - 1]) else p
  }

  /** String.split(", *"): a string without a match is returned whole; otherwise
      the pieces, with trailing empty pieces removed. */
  function SplitFieldList(s: string): (r: seq<string>)
    ensures ',' !in s ==> r == [s]
    ensures forall k :: 0 <= k < |r| ==> ',' !in r[k]
    ensures ',' in s && |r| > 0 ==> r[|r| - 1] != ""
  {
    if ',' !in s then [s] else DropTrailingEmpty(Pieces(s))
  }

  /** A field name that survives a join with "," and a split on ", *". */
  predicate CleanName(n: string) {
    |n| > 0 && ',' !in n && n[0] != ' '
  }

  lemma {:induction false} PiecesPrefix(a: string, t: string)
    requires ',' !in a
    ensures Pieces(a + t) == [a + Pieces(t)[0]] + Pieces(t)[1..]
    decreases |a|
  {
    if |a| > 0 {
      assert (a + t)[1..] == a[1..] + t;
      assert a[0] in a;
      PiecesPrefix(a[1..], t);
      assert [a[0]] + (a[1..] + Pieces(t)[0]) == a + Pieces(t)[0];
    } else {
      assert a + t == t;
      assert Pieces(t) == [Pieces(t)[0]] + Pieces(t)[1..];
      assert a + Pieces(t)[0] == Pieces(t)[0];
    }
  }

  lemma {:induction false} PiecesOfJoin(names: seq<string>)
    requires |names| > 0
    requires forall i :: 0 <= i < |names| ==> CleanName(names[i])
    ensures Pieces(Join(names, ",")) == names
    decreases |names|
  {
    if |names| == 1 {
      PiecesPrefix(names[0], "");
      assert names[0] + "" == names[0];
    } else {
      var rest := Join(names[1..], ",");
      PiecesOfJoin(names[1..]);
      JoinStartsWithFirst(names[1..]);
      assert Join(names, ",") == names[0] + ("," + rest);
      PiecesPrefix(names[0], "," + rest);
      assert ("," + rest)[1..] == rest;
      assert DropSpaces(rest) == rest;
      assert names[0] + "" == names[0];
      assert names == [names[0]] + names[1..];
    }
  }

  lemma {:induction false} JoinStartsWithFirst(names: seq<string>)
    requires |names| > 0 && |names[0]| > 0
    ensures |Join(names, ",")| > 0 && Join(names, ",")[0] == names[0][0]
  {
  }

  lemma {:induction false} CommaInJoin(names: seq<string>)
    requires forall i :: 0 <= i < |names| ==> ',' !in names[i]
    ensures (',' in Join(names, ",")) <==> |names| >= 2
    decreases |names|
  {
    if |names| >= 2 {
      var j := Join(names, ",");
      assert j == names[0] + "," + Join(names[1..], ",");
      assert j[|names[0]|] == ',';
    }
  }

  /** Splitting a comma-joined list of clean names gives back the names. */
  lemma SplitJoin(names: seq<string>)
    requires |names| > 0
    requires forall i :: 0 <= i < |names| ==> CleanName(names[i])
    ensures SplitFieldList(Join(names, ",")) == names
  {
    CommaInJoin(names);
    PiecesOfJoin(names);
    if |names| >= 2 {
      assert names[|names| - 1] != "" by { assert CleanName(names[|names| - 1]); }
    }
  }

  // ---------------------------------------------------------------------------
  // The advanced constructor
  // ---------------------------------------------------------------------------

  predicate HasTieBreaker(sort: string) {
    EndsWith(sort, "id asc") || EndsWith(sort, "id desc")
  }

  /** The sort tie-breaker required by cursor paging. */
  function NormaliseSort(sort: string): (r: string)
    ensures HasTieBreaker(r)
    ensures StartsWith(r, sort)
    ensures r == sort <==> HasTieBreaker(sort)
    ensures !HasTieBreaker(sort) ==> r == sort + ", id asc"
  {
    if HasTieBreaker(sort) then sort
    else
      StartsWithConcat(sort, ", id asc");
      EndsWithConcat(sort, ", id asc");
      assert (sort + ", id asc")[|sort| + 2..] == "id asc";
      assert EndsWith(sort + ", id asc", "id asc");
      sort + ", id asc"
  }

  /** Normalising an already normalised sort changes nothing. */
  lemma NormaliseSortIdempotent(sort: string)
    ensures NormaliseSort(NormaliseSort(sort)) == NormaliseSort(sort)
  {
  }

  /** The fields added to fl for the given switches. */
  function AddedFields(expandResources: bool, ensureUnique: bool, dedupField: Option<string>): set<string> {
    (if expandResources then {"content_type_norm", "source_file_path", "source_file_offset"} else {})
    + (if expandResources && ensureUnique then {"id"} else {})
    + (if dedupField.Some? then {dedupField.value} else {})
  }

  /** The advanced constructor. A query without fl or without rows fails with a
      NullPointerException when they are read; otherwise fl gains the fields that
      resource expansion, uniqueness and deduplication need, the sort gets its
      tie-breaker, the cursor defaults to "*" and maxUnique to its default. */
  function Normalise(query: SolrQuery, expandResources: bool, ensureUnique: bool,
                     maxUnique: Option<int>, dedupField: Option<string>): (r: Result<Settings>)
    ensures r.Err? <==> query.fl.None? || query.rows.None?
    ensures r.Err? ==> r.error == NullPointer
    ensures r.Ok? ==> var s := r.value;
      && s.pageSize == query.rows.value
      && s.cursorMark == query.cursorMark.GetOr(CURSOR_MARK_START)
      && s.sort == NormaliseSort(query.sort.GetOr(DEFAULT_SORT))
      && s.maxUnique == maxUnique.GetOr(DEFAULT_MAX_UNIQUE)
      && (forall f :: f in SplitFieldList(query.fl.value) ==> f in s.fl)
      && (expandResources ==> "content_type_norm" in s.fl && "source_file_path" in s.fl
                              && "source_file_offset" in s.fl)
      && (expandResources && ensureUnique ==> "id" in s.fl)
      && (dedupField.Some? ==> dedupField.value in s.fl)
      && (forall f :: f in s.fl ==> f in SplitFieldList(query.fl.value)
                                    || f in AddedFields(expandResources, ensureUnique, dedupField))
      && s.expandResources == expandResources && s.ensureUnique == ensureUnique
      && s.dedupField == dedupField
      && s.q == query.q && s.filterQueries == query.filterQueries
  {
    if query.fl.None? || query.rows.None? then Err(NullPointer)
    else
      var given := set f | f in SplitFieldList(query.fl.value);
      var fl := given + AddedFields(expandResources, ensureUnique, dedupField);
      Ok(Settings(
        query.q, query.filterQueries, fl,
        NormaliseSort(query.sort.GetOr(DEFAULT_SORT)),
        query.rows.value,
        query.cursorMark.GetOr(CURSOR_MARK_START),
        expandResources, ensureUnique,
        maxUnique.GetOr(DEFAULT_MAX_UNIQUE),
        dedupField))
  }

  /** The simple constructor: page size 1000, the default sort, no expansion, no
      uniqueness, no deduplication; it fails only for a null field list. */
  function SimpleSettings(fields: Option<seq<string>>, query: string,
                          filterQueries: seq<Option<string>>): (r: Result<Settings>)
    ensures r.Ok? <==> fields.Some?
    ensures r.Ok? ==> (r.value.pageSize == DEFAULT_PAGESIZE && r.value.sort == DEFAULT_SORT
      && !r.value.expandResources && !r.value.ensureUnique && r.value.dedupField.None?
      && r.value.cursorMark == CURSOR_MARK_START)
  {
    var r := Normalise(BuildBaseQuery(DEFAULT_PAGESIZE, fields, query, filterQueries, DEFAULT_SORT),
                       false, false, Some(0), None);
    assert DEFAULT_SORT[|DEFAULT_SORT| - 6..] == "id asc";
    r
  }

  /** The paged constructor: the given page size, the default sort, the default
      maxUnique and no deduplication. */
  function PagedSettings(pageSize: int, fields: Option<seq<string>>, expandResources: bool,
                         ensureUnique: bool, query: string,
                         filterQueries: seq<Option<string>>): (r: Result<Settings>)
    ensures r.Ok? <==> fields.Some?
    ensures r.Ok? ==> (r.value.pageSize == pageSize && r.value.sort == DEFAULT_SORT
      && r.value.maxUnique == DEFAULT_MAX_UNIQUE && r.value.dedupField.None?
      && r.value.expandResources == expandResources && r.value.ensureUnique == ensureUnique)
  {
    var r := Normalise(BuildBaseQuery(pageSize, fields, query, filterQueries, DEFAULT_SORT),
                       expandResources, ensureUnique, Some(DEFAULT_MAX_UNIQUE), None);
    assert DEFAULT_SORT[|DEFAULT_SORT| - 6..] == "id asc";
    r
  }

  /** Every clean field name passed to a convenience constructor is exported. */
  lemma FieldsAreExported(pageSize: int, fields: seq<string>, expandResources: bool,
                          ensureUnique: bool, query: string, filterQueries: seq<Option<string>>)
    requires |fields| > 0
    requires forall i :: 0 <= i < |fields| ==> CleanName(fields[i])
    ensures var r := PagedSettings(pageSize, Some(fields), expandResources, ensureUnique,
                                   query, filterQueries);
      r.Ok? && forall i :: 0 <= i < |fields| ==> fields[i] in r.value.fl
  {
    SplitJoin(fields);
  }

  // ---------------------------------------------------------------------------
  // timeProximity
  // ---------------------------------------------------------------------------

  predicate DigitsAt(s: string, lo: int, hi: int)
    requires 0 <= lo <= hi <= |s|
  {
    forall i :: lo <= i < hi ==> IsDigit(s[i])
  }

  /** After the minutes: an optional '.', up to three digits, then the final 'Z'. */
  predicate FractionTail(t: string) {
    |t| >= 1 && t[|t| - 1] == 'Z' &&
    var m := t[..|t| - 1];
    var d := if |m| > 0 && m[0] == '.' then m[1..] else m;
    |d| <= 3 && AllDigits(d)
  }

  /** A full match of ISO_TIME, "[0-9]{4}-[0-9]{2}-[0-9]{2}T[012][0-9]:[0-5][0-9],
      an optional '.', up to three digits, Z": hours and minutes, no seconds. */
  predicate IsIsoTime(s: string) {
    |s| >= 17
    && DigitsAt(s, 0, 4) && s[4] == '-' && DigitsAt(s, 5, 7) && s[7] == '-'
    && DigitsAt(s, 8, 10) && s[10] == 'T'
    && '0' <= s[11] <= '2' && IsDigit(s[12]) && s[13] == ':'
    && '0' <= s[14] <= '5' && IsDigit(s[15])
    && FractionTail(s[16..])
  }

  /** The instant the results should be closest to: "newest" and "oldest" stand for
      fixed instants, anything else must match ISO_TIME; a null idealTime fails in
      the matcher. */
  function Origo(idealTime: Option<string>): (r: Result<string>)
    ensures idealTime.None? ==> r == Err(NullPointer)
    ensures idealTime == Some("newest") ==> r == Ok(NEWEST_ORIGO)
    ensures idealTime == Some("oldest") ==> r == Ok(OLDEST_ORIGO)
    ensures idealTime.Some? && idealTime.value != "newest" && idealTime.value != "oldest" ==>
      (r.Ok? <==> IsIsoTime(idealTime.value)) && (r.Ok? ==> r.value == idealTime.value)
      && (r.Err? ==> r.error == IllegalArgument)
  {
    match idealTime
    case None => Err(NullPointer)
    case Some(t) =>
      if t == "newest" then Ok(NEWEST_ORIGO)
      else if t == "oldest" then Ok(OLDEST_ORIGO)
      else if IsIsoTime(t) then Ok(t)
      else Err(IllegalArgument)
  }

  function ProximitySort(dedupField: string, origo: string): string {
    dedupField + " asc, abs(sub(ms(" + origo + "), crawl_date)) asc"
  }

  lemma ProximitySortNeedsTieBreaker(dedupField: string, origo: string)
    ensures !HasTieBreaker(ProximitySort(dedupField, origo))
  {
    var s := ProximitySort(dedupField, origo);
    var tail := "), crawl_date)) asc";
    EndsWithConcat(dedupField + " asc, abs(sub(ms(" + origo, tail);
    assert s[|s| - |tail|..] == tail;
    SuffixOfSuffix(s, |tail|, 6);
    SuffixOfSuffix(s, |tail|, 7);
    assert s[|s| - 6..][0] == tail[|tail| - 6] == ')';
    assert s[|s| - 7..][0] == tail[|tail| - 7] == 'e';
  }

  lemma SuffixOfSuffix(s: string, n: nat, k: nat)
    requires k <= n <= |s|
    ensures s[|s| - k..] == s[|s| - n..][n - k..]
  {
  }

  /** timeProximity: validates idealTime (IllegalArgumentException) before the
      deduplication field (NullPointerException), then sorts on the deduplication
      field and on the distance to the origo, with the id tie-breaker appended. */
  function TimeProximity(fields: Option<seq<string>>, expandResources: bool, ensureUnique: bool,
                         maxUnique: Option<int>, idealTime: Option<string>,
                         dedupField: Option<string>, query: string,
                         filterQueries: seq<Option<string>>): (r: Result<Settings>)
    ensures Origo(idealTime).Err? ==> r == Err(Origo(idealTime).error)
    ensures Origo(idealTime).Ok? && dedupField.None? ==> r == Err(NullPointer)
    ensures Origo(idealTime).Ok? && dedupField.Some? ==> (r.Ok? <==> fields.Some?)
    ensures r.Ok? ==> (Origo(idealTime).Ok? && dedupField.Some?
      && r.value.sort == ProximitySort(dedupField.value, Origo(idealTime).value) + ", id asc"
      && r.value.pageSize == DEFAULT_PAGESIZE
      && r.value.dedupField == dedupField && dedupField.value in r.value.fl)
  {
    match Origo(idealTime)
    case Err(e) => Err(e)
    case Ok(origo) =>
      if dedupField.None? then Err(NullPointer)
      else
        var sort := ProximitySort(dedupField.value, origo);
        ProximitySortNeedsTieBreaker(dedupField.value, origo);
        Normalise(BuildBaseQuery(DEFAULT_PAGESIZE, fields, query, filterQueries, sort),
                  expandResources, ensureUnique, maxUnique, dedupField)
  }

  // ---------------------------------------------------------------------------
  // Where the code departs from its comments
  // ---------------------------------------------------------------------------

  /** The comment's own example instant, which has seconds, is rejected. */
  lemma IsoTimeRejectsSeconds()
    ensures !IsIsoTime("2014-01-03T11:56:58Z")
    ensures TimeProximity(Some(["url"]), false, false, None, Some("2014-01-03T11:56:58Z"),
                          Some("url"), "*:*", []) == Err(IllegalArgument)
  {
    var t := "2014-01-03T11:56:58Z"[16..];
    assert t == ":58Z";
    assert t[..|t| - 1] == ":58";
    assert !IsDigit(t[..|t| - 1][0]);
  }

  /** Minutes followed directly by digits, without seconds, are accepted. */
  lemma IsoTimeAcceptsMinutesAndDigits()
    ensures IsIsoTime("2014-01-03T11:5658Z")
    ensures IsIsoTime("2014-01-03T11:56Z")
  {
    var t := "2014-01-03T11:5658Z"[16..];
    assert t == "58Z";
    assert t[..|t| - 1] == "58";
    var u := "2014-01-03T11:56Z"[16..];
    assert u == "Z";
    assert u[..|u| - 1] == "";
  }

  /** The deduplication field is not made the primary sort field: the prefixed sort
      is overwritten by the plain normalised sort, so a sort that does not start
      with the field still does not afterwards. */
  lemma DedupFieldNotPrimarySort(query: SolrQuery, expandResources: bool, ensureUnique: bool,
                                 maxUnique: Option<int>, field: string)
    requires query.fl.Some? && query.rows.Some?
    requires var sort := query.sort.GetOr(DEFAULT_SORT); |field| <= |sort| && !StartsWith(sort, field)
    ensures var r := Normalise(query, expandResources, ensureUnique, maxUnique, Some(field));
      r.Ok? && r.value.dedupField == Some(field) && !StartsWith(r.value.sort, field)
  {
    var sort := query.sort.GetOr(DEFAULT_SORT);
    var r := NormaliseSort(sort);
    if r != sort {
      assert r[..|field|] == sort[..|field|];
    }
  }

  /** With uniqueness but without resource expansion, "id" is added to fl by
      neither switch: it is there only when asked for. */
  lemma IdNotAddedWithoutExpansion(query: SolrQuery, maxUnique: Option<int>, dedupField: Option<string>)
    requires query.fl.Some? && query.rows.Some?
    requires "id" !in SplitFieldList(query.fl.value) && dedupField != Some("id")
    ensures var r := Normalise(query, false, true, maxUnique, dedupField);
      r.Ok? && r.value.ensureUnique && "id" !in r.value.fl
  {
  }

  /** A query without fl is rejected instead of defaulting to
      "source_file_path,source_file_offset", and one without rows instead of
      defaulting to 1000. */
  lemma MissingFlOrRowsFails(query: SolrQuery)
    requires query.fl.None? || query.rows.None?
    ensures Normalise(query, false, false, None, None) == Err(NullPointer)
  {
  }
}
