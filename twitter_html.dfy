/** The text-formatting helpers of the tweet playback page: entity splicing of the
    tweet text, newline conversion, image tags, search links and the page title.
    The tweet parser's entity maps and the configured base URL are parameters. */
module TwitterHtml {
  import opened Util

  const SEARCH_PARAMS: string := " AND type%3A\"Twitter Tweet\""
  const HASHTAG_PREFIX: string := "keywords%3A"
  const SEARCH_PATH: string := "search?query="
  const LINK_OPEN: string := "<span><a href='"
  const LINK_TEXT: string := "'>"
  const LINK_CLOSE: string := "</a></span>"

  // ---------------------------------------------------------------------------
  // Small string builders
  // ---------------------------------------------------------------------------

  /** A search link into the archive's tweet search: the search string sits between
      a fixed prefix and a fixed suffix and can be read back from the link. */
  function MakeSolrSearchLink(baseUrl: string, searchString: string): (r: string)
    ensures StartsWith(r, baseUrl + SEARCH_PATH) && EndsWith(r, SEARCH_PARAMS)
  {
    var head := baseUrl + SEARCH_PATH;
    AppendAssoc(head, searchString, SEARCH_PARAMS);
    StartsWithConcat(head, searchString + SEARCH_PARAMS);
    EndsWithConcat(head + searchString, SEARCH_PARAMS);
    head + searchString + SEARCH_PARAMS
  }

  lemma SearchLinkRecoverable(baseUrl: string, searchString: string)
    ensures var r := MakeSolrSearchLink(baseUrl, searchString);
      && StartsWith(r, baseUrl + SEARCH_PATH)
      && EndsWith(r, SEARCH_PARAMS)
      && |r| == |baseUrl| + 13 + |searchString| + |SEARCH_PARAMS|
      && r[|baseUrl| + 13..|r| - |SEARCH_PARAMS|] == searchString
  {
    var r := MakeSolrSearchLink(baseUrl, searchString);
    var head := baseUrl + SEARCH_PATH;
    assert r == head + searchString + SEARCH_PARAMS;
    assert r[..|head|] == head;
    assert r[|head|..|r| - |SEARCH_PARAMS|] == searchString;
  }

  /** Java string concatenation renders a null user name as "null". */
  function NameText(userName: Option<string>): string {
    match userName
    case Some(n) => n
    case None => "null"
  }

  /** The page title: "Retweet by: " exactly for retweets, "Tweet by: " otherwise,
      followed by the user name. */
  function GetHeadTitle(isRetweet: bool, userName: Option<string>): (r: string)
    ensures StartsWith(r, "Retweet by: ") <==> isRetweet
    ensures !isRetweet ==> StartsWith(r, "Tweet by: ")
    ensures EndsWith(r, NameText(userName))
    ensures |r| == (if isRetweet then 12 else 10) + |NameText(userName)|
  {
    var titlePrefix := if isRetweet then "Retweet by: " else "Tweet by: ";
    assert !isRetweet ==> titlePrefix[0] != "Retweet by: "[0];
    titlePrefix + NameText(userName)
  }

  /** What one character becomes in newline2Br. */
  function BrOf(c: char): string {
    if c == '\n' then "<br>" else [c]
  }

  /** Reference definition of newline2Br as a character-by-character map. */
  function BrMap(s: string): string {
    Concat(seq(|s|, i requires 0 <= i < |s| => BrOf(s[i])))
  }

  /** newline2Br: null gives the empty string; otherwise every "\n" becomes "<br>". */
  function Newline2Br(text: Option<string>): (r: string)
    ensures text.None? ==> r == ""
    ensures forall i :: 0 <= i < |r| ==> r[i] != '\n'
  {
    if text.None? then ""
    else
      Newline2BrIsMap(text.value);
      BrMapHasNoNewline(text.value);
      ReplaceAll(text.value, "\n", "<br>")
  }

  lemma {:induction false} Newline2BrIsMap(s: string)
    ensures ReplaceAll(s, "\n", "<br>") == BrMap(s)
    decreases |s|
  {
    if |s| > 0 {
      Newline2BrIsMap(s[1..]);
      var parts := seq(|s|, i requires 0 <= i < |s| => BrOf(s[i]));
      assert parts[1..] == seq(|s[1..]|, i requires 0 <= i < |s[1..]| => BrOf(s[1..][i]));
      assert BrMap(s) == BrOf(s[0]) + BrMap(s[1..]);
      if s[0] == '\n' {
        assert s[..1] == "\n";
      } else {
        assert s[..1] != "\n" by { assert s[..1] == [s[0]]; }
      }
    } else {
      assert BrMap(s) == "";
    }
  }

  lemma {:induction false} BrMapHasNoNewline(s: string)
    ensures forall i :: 0 <= i < |BrMap(s)| ==> BrMap(s)[i] != '\n'
    decreases |s|
  {
    if |s| > 0 {
      BrMapHasNoNewline(s[1..]);
      var parts := seq(|s|, i requires 0 <= i < |s| => BrOf(s[i]));
      assert parts[1..] == seq(|s[1..]|, i requires 0 <= i < |s[1..]| => BrOf(s[1..][i]));
      assert BrMap(s) == BrOf(s[0]) + BrMap(s[1..]);
    } else {
      assert BrMap(s) == "";
    }
  }

  function CountNewlines(s: string): nat {
    if |s| == 0 then 0 else (if s[0] == '\n' then 1 else 0) + CountNewlines(s[1..])
  }

  /** Each "\n" grows the text by three characters; a text without "\n" is unchanged. */
  lemma {:induction false} Newline2BrLength(s: string)
    ensures |Newline2Br(Some(s))| == |s| + 3 * CountNewlines(s)
    ensures CountNewlines(s) == 0 ==> Newline2Br(Some(s)) == s
    decreases |s|
  {
    Newline2BrIsMap(s);
    if |s| > 0 {
      Newline2BrLength(s[1..]);
      Newline2BrIsMap(s[1..]);
      var parts := seq(|s|, i requires 0 <= i < |s| => BrOf(s[i]));
      assert parts[1..] == seq(|s[1..]|, i requires 0 <= i < |s[1..]| => BrOf(s[1..][i]));
      assert BrMap(s) == BrOf(s[0]) + BrMap(s[1..]);
      assert s == [s[0]] + s[1..];
    } else {
      assert BrMap(s) == "";
    }
  }

  // ---------------------------------------------------------------------------
  // Image tags
  // ---------------------------------------------------------------------------

  datatype ImageUrl = ImageUrl(downloadUrl: string)

  function ImgTag(image: ImageUrl): string {
    "<img src='" + image.downloadUrl + "'/>\n"
  }

  function ImagesHtml(images: seq<ImageUrl>): string {
    Concat(seq(|images|, i requires 0 <= i < |images| => ImgTag(images[i])))
  }

  /** The tags of a concatenation of lists are the concatenation of their tags. */
  lemma ImagesHtmlAppend(a: seq<ImageUrl>, b: seq<ImageUrl>)
    ensures ImagesHtml(a + b) == ImagesHtml(a) + ImagesHtml(b)
  {
    var ta := seq(|a|, i requires 0 <= i < |a| => ImgTag(a[i]));
    var tb := seq(|b|, i requires 0 <= i < |b| => ImgTag(b[i]));
    assert seq(|a + b|, i requires 0 <= i < |a + b| => ImgTag((a + b)[i])) == ta + tb;
    ConcatAppend(ta, tb);
  }

  /** imageUrlToHtml: one "<img src='URL'/>" line per image, in list order. */
  method ImageUrlToHtml(images: seq<ImageUrl>) returns (r: string)
    ensures r == ImagesHtml(images)
    ensures images == [] ==> r == ""
  {
    r := "";
    var i := 0;
    while i < |images|
      invariant 0 <= i <= |images|
      invariant r == ImagesHtml(images[..i])
    {
      ImagesHtmlAppend(images[..i], [images[i]]);
      assert images[..i + 1] == images[..i] + [images[i]];
      var one := [images[i]];
      assert seq(|one|, k requires 0 <= k < |one| => ImgTag(one[k])) == [ImgTag(images[i])];
      assert Concat([ImgTag(images[i])]) == ImgTag(images[i]) + Concat([]);
      r := r + "<img src='" + images[i].downloadUrl + "'/>\n";
      i := i + 1;
    }
    assert images[..i] == images;
  }

  // ---------------------------------------------------------------------------
  // Entity splicing
  // ---------------------------------------------------------------------------

  /** An entity key: the [start, end) offsets of a hashtag or mention in the text. */
  datatype Span = Span(start: int, end: int)
  type Entry = (Span, string)

  /** LinkedHashMap.put: an existing key keeps its position and takes the new value,
      a new key is appended. */
  function Put(m: seq<Entry>, e: Entry): (r: seq<Entry>)
    ensures |r| == |m| || r == m + [e]
  {
    if |m| == 0 then [e]
    else if m[0].0 == e.0 then [e] + m[1..]
    else [m[0]] + Put(m[1..], e)
  }

  function PutAll(m: seq<Entry>, es: seq<Entry>): seq<Entry>
    decreases |es|
  {
    if |es| == 0 then m else PutAll(Put(m, es[0]), es[1..])
  }

  /** The merged entity map: the hashtags, then the mentions. */
  function AllEntities(hashtags: seq<Entry>, mentions: seq<Entry>): seq<Entry> {
    PutAll(PutAll([], hashtags), mentions)
  }

  function Reverse<T>(s: seq<T>): (r: seq<T>)
    ensures |r| == |s| && forall i :: 0 <= i < |s| ==> r[i] == s[|s| - 1 - i]
  {
    seq(|s|, i requires 0 <= i < |s| => s[|s| - 1 - i])
  }

  ghost predicate KeysNotIn(es: seq<Entry>, m: seq<Entry>) {
    forall i, j :: 0 <= i < |es| && 0 <= j < |m| ==> es[i].0 != m[j].0
  }

  ghost predicate DistinctKeys(es: seq<Entry>) {
    forall i, j :: 0 <= i < j < |es| ==> es[i].0 != es[j].0
  }

  /** An existing key keeps its position: its first entry takes the new value, and
      every other entry stays where it was. */
  lemma {:induction false} PutExisting(m: seq<Entry>, e: Entry, j: nat)
    requires j < |m| && m[j].0 == e.0
    requires forall l :: 0 <= l < j ==> m[l].0 != e.0
    ensures Put(m, e) == m[..j] + [e] + m[j + 1..]
    decreases j
  {
    if j > 0 {
      PutExisting(m[1..], e, j - 1);
      assert m[1..][..j - 1] == m[1..j];
      assert m[1..][j..] == m[j + 1..];
      assert [m[0]] + m[1..j] == m[..j];
    }
  }

  lemma {:induction false} PutFresh(m: seq<Entry>, e: Entry)
    requires forall j :: 0 <= j < |m| ==> m[j].0 != e.0
    ensures Put(m, e) == m + [e]
    decreases |m|
  {
    if |m| > 0 {
      PutFresh(m[1..], e);
      assert m == [m[0]] + m[1..];
    }
  }

  lemma {:induction false} PutAllFresh(m: seq<Entry>, es: seq<Entry>)
    requires DistinctKeys(es) && KeysNotIn(es, m)
    ensures PutAll(m, es) == m + es
    decreases |es|
  {
    if |es| > 0 {
      PutFresh(m, es[0]);
      PutAllFresh(m + [es[0]], es[1..]);
      assert (m + [es[0]]) + es[1..] == m + es;
    }
  }

  lemma DistinctKeysSplit(a: seq<Entry>, b: seq<Entry>)
    requires DistinctKeys(a + b)
    ensures DistinctKeys(a) && DistinctKeys(b) && KeysNotIn(b, a)
  {
    var all := a + b;
    forall i, j | 0 <= i < j < |a| ensures a[i].0 != a[j].0 {
      assert all[i] == a[i] && all[j] == a[j];
    }
    forall i, j | 0 <= i < j < |b| ensures b[i].0 != b[j].0 {
      assert all[|a| + i] == b[i] && all[|a| + j] == b[j];
    }
    forall i, j | 0 <= i < |b| && 0 <= j < |a| ensures b[i].0 != a[j].0 {
      assert all[j] == a[j] && all[|a| + i] == b[i];
    }
  }

  /** When hashtag and mention keys are all distinct, the merged map is the hashtags
      followed by the mentions, so splicing visits the mentions last-to-first and
      then the hashtags last-to-first. */
  lemma MergedOrder(hashtags: seq<Entry>, mentions: seq<Entry>)
    requires DistinctKeys(hashtags + mentions)
    ensures AllEntities(hashtags, mentions) == hashtags + mentions
    ensures Reverse(AllEntities(hashtags, mentions)) == Reverse(mentions) + Reverse(hashtags)
  {
    DistinctKeysSplit(hashtags, mentions);
    PutAllFresh([], hashtags);
    assert [] + hashtags == hashtags;
    PutAllFresh(hashtags, mentions);
    ReverseAppend(hashtags, mentions);
  }

  lemma ReverseAppend<T>(a: seq<T>, b: seq<T>)
    ensures Reverse(a + b) == Reverse(b) + Reverse(a)
  {
    var l, r := Reverse(a + b), Reverse(b) + Reverse(a);
    assert |l| == |r|;
    forall i | 0 <= i < |l| ensures l[i] == r[i] {
      if i < |b| {
        assert l[i] == (a + b)[|a| + |b| - 1 - i] == b[|b| - 1 - i];
      } else {
        assert l[i] == (a + b)[|a| + |b| - 1 - i] == a[|a| - 1 - (i - |b|)];
      }
    }
  }

  lemma ReverseSnoc<T>(s: seq<T>, x: T)
    ensures Reverse(s + [x]) == [x] + Reverse(s)
  {
    ReverseAppend(s, [x]);
    assert Reverse([x]) == [x];
  }

  /** The link that replaces one entity; hashtags search the keywords field. */
  function TagWithLink(tag: string, baseUrl: string): string
    requires |tag| > 0
  {
    var searchPrefix := if tag[0] == '#' then HASHTAG_PREFIX else "";
    LINK_OPEN + MakeSolrSearchLink(baseUrl, searchPrefix + tag[1..]) + LINK_TEXT + tag + LINK_CLOSE
  }

  /** The link is an anchor whose query is the tag without its '#' or '@' marker
      (a hashtag searching the keywords field) and whose text is the tag itself. */
  lemma TagWithLinkShape(tag: string, baseUrl: string)
    requires |tag| > 0
    ensures StartsWith(TagWithLink(tag, baseUrl), LINK_OPEN + baseUrl + SEARCH_PATH)
    ensures EndsWith(TagWithLink(tag, baseUrl), SEARCH_PARAMS + LINK_TEXT + tag + LINK_CLOSE)
  {
    var mid := (if tag[0] == '#' then HASHTAG_PREFIX else "") + tag[1..];
    var p, q, r, u := LINK_OPEN, SEARCH_PATH, LINK_TEXT, LINK_CLOSE;
    assert TagWithLink(tag, baseUrl) == p + (baseUrl + q + mid + SEARCH_PARAMS) + r + tag + u;
    Regroup(p, baseUrl, q, mid, SEARCH_PARAMS, r, tag, u);
    StartsWithConcat(p + baseUrl + q, mid + (SEARCH_PARAMS + r + tag + u));
    EndsWithConcat((p + baseUrl + q) + mid, SEARCH_PARAMS + r + tag + u);
  }

  /** Regrouping the eight parts of a link around its query. */
  lemma Regroup(p: string, b: string, q: string, m: string, s: string, r: string, t: string, u: string)
    ensures p + (b + q + m + s) + r + t + u == (p + b + q) + (m + (s + r + t + u))
    ensures p + (b + q + m + s) + r + t + u == ((p + b + q) + m) + (s + r + t + u)
  {
  }

  /** StringBuilder.replace(start, end, str) succeeds iff 0 <= start <= length and
      start <= end; an end beyond the length is clamped. The entity's tag must also be
      non-empty, as its first character is read. */
  predicate CanSplice(sb: string, e: Entry) {
    |e.1| > 0 && 0 <= e.0.start <= |sb| && e.0.start <= e.0.end
  }

  function SpliceOne(sb: string, e: Entry, baseUrl: string): string
    requires CanSplice(sb, e)
  {
    var end := if e.0.end > |sb| then |sb| else e.0.end;
    sb[..e.0.start] + TagWithLink(e.1, baseUrl) + sb[end..]
  }

  /** The text after splicing, and how many entities were spliced before the first
      one whose replacement threw. */
  datatype Spliced = Spliced(text: string, applied: nat)

  /** Splices the entities in the given order; an entity that cannot be spliced ends
      the run (the source catches the exception and keeps the text built so far). */
  function SpliceAll(sb: string, es: seq<Entry>, baseUrl: string): (r: Spliced)
    ensures r.applied <= |es|
    decreases |es|
  {
    if |es| == 0 then Spliced(sb, 0)
    else if !CanSplice(sb, es[0]) then Spliced(sb, 0)
    else
      var rest := SpliceAll(SpliceOne(sb, es[0], baseUrl), es[1..], baseUrl);
      Spliced(rest.text, rest.applied + 1)
  }

  /** The run stops exactly at the first entity that cannot be spliced into the text
      built so far, and that text is the result of splicing the entities before it. */
  lemma {:induction false} SpliceStopsAtFailure(sb: string, es: seq<Entry>, baseUrl: string)
    ensures var r := SpliceAll(sb, es, baseUrl);
      && SpliceAll(sb, es[..r.applied], baseUrl) == r
      && (r.applied < |es| ==> !CanSplice(r.text, es[r.applied]))
    decreases |es|
  {
    if |es| > 0 && CanSplice(sb, es[0]) {
      var next := SpliceOne(sb, es[0], baseUrl);
      SpliceStopsAtFailure(next, es[1..], baseUrl);
      var r := SpliceAll(sb, es, baseUrl);
      PrefixTail(es, r.applied);
    } else {
      assert es[..0] == [];
    }
  }

  /** Splicing from position i: the entity at i, then the rest. */
  lemma SpliceAllAt(sb: string, es: seq<Entry>, i: nat, baseUrl: string)
    requires i < |es| && CanSplice(sb, es[i])
    ensures SpliceAll(sb, es[i..], baseUrl).text == SpliceAll(SpliceOne(sb, es[i], baseUrl), es[i + 1..], baseUrl).text
  {
    assert es[i..][0] == es[i];
    assert es[i..][1..] == es[i + 1..];
  }

  lemma PrefixTail<T>(s: seq<T>, n: nat)
    requires 1 <= n <= |s|
    ensures s[..n][1..] == s[1..][..n - 1]
  {
  }

  /** formatEntities: splice the merged entities in reverse insertion order. */
  function FormatEntitiesSpec(text: string, hashtags: seq<Entry>, mentions: seq<Entry>, baseUrl: string): string {
    SpliceAll(text, Reverse(AllEntities(hashtags, mentions)), baseUrl).text
  }

  /** formatEntities as the source runs it: a loop over the reversed keys that
      replaces each span in a StringBuilder and stops at the first failure. */
  method FormatEntities(text: string, hashtags: seq<Entry>, mentions: seq<Entry>, baseUrl: string)
    returns (r: string)
    ensures r == FormatEntitiesSpec(text, hashtags, mentions, baseUrl)
  {
    var sb := text;
    var reverseKeys := Reverse(AllEntities(hashtags, mentions));
    var i := 0;
    while i < |reverseKeys|
      invariant 0 <= i <= |reverseKeys|
      invariant SpliceAll(sb, reverseKeys[i..], baseUrl).text == SpliceAll(text, reverseKeys, baseUrl).text
    {
      var (indexPair, tag) := reverseKeys[i];
      if |tag| == 0 || indexPair.start < 0 || indexPair.start > |sb| || indexPair.start > indexPair.end {
        break;
      }
      var searchPrefix := if tag[0] == '#' then HASHTAG_PREFIX else "";
      var searchUrl := MakeSolrSearchLink(baseUrl, searchPrefix + tag[1..]);
      var tagWithLink := LINK_OPEN + searchUrl + LINK_TEXT + tag + LINK_CLOSE;
      var endIndex := if indexPair.end > |sb| then |sb| else indexPair.end;
      SpliceAllAt(sb, reverseKeys, i, baseUrl);
      assert tagWithLink == TagWithLink(tag, baseUrl);
      sb := sb[..indexPair.start] + tagWithLink + sb[endIndex..];
      i := i + 1;
    }
    r := sb;
  }

  /** formatTweetMainText: entity links first, then newlines to <br>. */
  method FormatTweetMainText(text: string, hashtags: seq<Entry>, mentions: seq<Entry>, baseUrl: string)
    returns (r: string)
    ensures r == Newline2Br(Some(FormatEntitiesSpec(text, hashtags, mentions, baseUrl)))
    ensures forall i :: 0 <= i < |r| ==> r[i] != '\n'
  {
    var mainText := FormatEntities(text, hashtags, mentions, baseUrl);
    r := Newline2Br(Some(mainText));
  }

  // ---------------------------------------------------------------------------
  // Reference: building the output left to right
  // ---------------------------------------------------------------------------

  /** Entities in ascending, non-overlapping order, all inside the text from `pos` on,
      each with a non-empty tag. */
  ghost predicate Ordered(text: string, es: seq<Entry>, pos: int) {
    if |es| == 0 then 0 <= pos <= |text|
    else (0 <= pos <= es[0].0.start <= es[0].0.end <= |text| && |es[0].1| > 0
          && Ordered(text, es[1..], es[0].0.end))
  }

  /** Copy the unmodified text between entities and substitute each entity's link. */
  ghost function Build(text: string, es: seq<Entry>, pos: int, baseUrl: string): string
    requires Ordered(text, es, pos)
    decreases |es|
  {
    if |es| == 0 then text[pos..]
    else text[pos..es[0].0.start] + TagWithLink(es[0].1, baseUrl) + Build(text, es[1..], es[0].0.end, baseUrl)
  }

  lemma {:induction false} OrderedBounds(text: string, es: seq<Entry>, pos: int)
    requires Ordered(text, es, pos)
    ensures 0 <= pos <= |text|
    ensures forall k :: 0 <= k < |es| ==> pos <= es[k].0.start <= es[k].0.end <= |text|
    decreases |es|
  {
    if |es| > 0 {
      OrderedBounds(text, es[1..], es[0].0.end);
      forall k | 1 <= k < |es| ensures es[k] == es[1..][k - 1] { }
    }
  }

  lemma {:induction false} OrderedSnoc(text: string, es: seq<Entry>, x: Entry, pos: int)
    requires Ordered(text, es + [x], pos)
    ensures |x.1| > 0 && x.0.start <= x.0.end <= |text|
    ensures |es| > 0 ==> es[|es| - 1].0.end <= x.0.start
    ensures |es| == 0 ==> pos <= x.0.start
    ensures 0 <= x.0.start && Ordered(text[..x.0.start], es, pos)
    decreases |es|
  {
    OrderedBounds(text, es + [x], pos);
    if |es| == 0 {
      assert (es + [x])[0] == x;
      assert ([] + [x])[1..] == [];
    } else {
      assert (es + [x])[1..] == es[1..] + [x];
      OrderedSnoc(text, es[1..], x, es[0].0.end);
      if |es| == 1 {
        assert es[1..] == [];
      } else {
        assert es[|es| - 1] == es[1..][|es[1..]| - 1];
      }
    }
  }

  lemma BuildSingle(text: string, x: Entry, pos: int, baseUrl: string)
    requires Ordered(text, [x], pos)
    ensures x.0.start <= |text| && Ordered(text[..x.0.start], [], pos)
    ensures Build(text, [x], pos, baseUrl)
         == Build(text[..x.0.start], [], pos, baseUrl) + TagWithLink(x.1, baseUrl) + text[x.0.end..]
  {
    assert [x][1..] == [];
  }

  /** Building with one more entity at the end splices that entity's link into the
      tail of the text. */
  lemma {:induction false} BuildSnoc(text: string, es: seq<Entry>, x: Entry, pos: int, baseUrl: string)
    requires Ordered(text, es + [x], pos)
    ensures 0 <= x.0.start <= x.0.end <= |text| && |x.1| > 0
    ensures Ordered(text[..x.0.start], es, pos)
    ensures Build(text, es + [x], pos, baseUrl)
         == Build(text[..x.0.start], es, pos, baseUrl) + TagWithLink(x.1, baseUrl) + text[x.0.end..]
    decreases |es|, 1
  {
    if |es| == 0 {
      assert es + [x] == [x];
      BuildSingle(text, x, pos, baseUrl);
    } else {
      BuildSnocStep(text, es, x, pos, baseUrl);
    }
  }

  lemma {:induction false} BuildSnocStep(text: string, es: seq<Entry>, x: Entry, pos: int, baseUrl: string)
    requires |es| > 0 && Ordered(text, es + [x], pos)
    ensures 0 <= x.0.start <= x.0.end <= |text| && |x.1| > 0
    ensures Ordered(text[..x.0.start], es, pos)
    ensures Build(text, es + [x], pos, baseUrl)
         == Build(text[..x.0.start], es, pos, baseUrl) + TagWithLink(x.1, baseUrl) + text[x.0.end..]
    decreases |es|, 0
  {
    OrderedSnoc(text, es, x, pos);
    var p := text[..x.0.start];
    var e := es[0];
    var t0 := TagWithLink(e.1, baseUrl);
    assert Ordered(text, es[1..] + [x], e.0.end) && 0 <= pos <= e.0.start <= e.0.end && |e.1| > 0
        && Build(text, es + [x], pos, baseUrl) == text[pos..e.0.start] + t0 + Build(text, es[1..] + [x], e.0.end, baseUrl) by {
      assert (es + [x])[0] == e;
      assert (es + [x])[1..] == es[1..] + [x];
    }
    BuildSnoc(text, es[1..], x, e.0.end, baseUrl);
    var rest := Build(p, es[1..], e.0.end, baseUrl);
    assert Build(p, es, pos, baseUrl) == p[pos..e.0.start] + t0 + rest;
    SliceOfPrefix(text, x.0.start, pos, e.0.start);
    RegroupBuild(text[pos..e.0.start], t0, rest, TagWithLink(x.1, baseUrl), text[x.0.end..]);
  }

  lemma SliceOfPrefix(s: string, k: int, i: int, j: int)
    requires 0 <= i <= j <= k <= |s|
    ensures s[..k][i..j] == s[i..j]
  {
  }

  lemma RegroupBuild(a: string, b: string, c: string, d: string, e: string)
    ensures a + b + (c + d + e) == (a + b + c) + d + e
  {
  }

  /** Entities processed last-to-first, each ending at or before the start of the one
      processed before it, the first ending inside `p`. */
  ghost predicate Descending(p: string, es: seq<Entry>)
    decreases |es|
  {
    |es| == 0 ||
    (0 <= es[0].0.start <= es[0].0.end <= |p| && |es[0].1| > 0 &&
     (|es| > 1 ==> es[1].0.end <= es[0].0.start) && Descending(p[..es[0].0.start], es[1..]))
  }

  /** The keys are reversed as a whole, not sorted by position: a mention that comes
      before a hashtag in the text is spliced first, so the splicing does not run
      from the end of the text to its start. */
  lemma MentionBeforeHashtagSplicedFirst(text: string, h: Entry, m: Entry)
    requires m.0.start < h.0.start <= h.0.end
    ensures Reverse(AllEntities([h], [m])) == [m, h]
    ensures !Descending(text, [m, h])
  {
    assert [h][1..] == [] && [m][1..] == [];
    assert PutAll([], [h]) == [h];
    assert Put([h], m) == [h] + Put([], m);
    assert PutAll([h], [m]) == [h, m];
  }

  /** The effect on a text: in "@a#b" the mention is replaced first, and the
      hashtag's offsets 2-4 then point into the mention's link, so the output differs
      from the entity-by-entity substitution (at position 2, '<' instead of 'p'). */
  lemma MentionBeforeHashtagCorruptsText()
    ensures var h, m := (Span(2, 4), "#b"), (Span(0, 2), "@a");
      Ordered("@a#b", [m, h], 0) && FormatEntitiesSpec("@a#b", [h], [m], "") != Build("@a#b", [m, h], 0, "")
  {
    var text := "@a#b";
    var h, m := (Span(2, 4), "#b"), (Span(0, 2), "@a");
    MentionBeforeHashtagSplicedFirst(text, h, m);
    var lm, lh := TagWithLink("@a", ""), TagWithLink("#b", "");
    LinkOpening("@a", "");
    LinkOpening("#b", "");
    var sb1 := SpliceOne(text, m, "");
    assert sb1 == lm + "#b";
    var sb2 := SpliceOne(sb1, h, "");
    assert sb2 == sb1[..2] + lh + sb1[4..];
    assert sb2[2] == '<';
    assert [h][1..] == [];
    assert SpliceAll(text, [m, h], "").text == sb2 by {
      assert [m, h][0] == m && [m, h][1..] == [h] && [h][0] == h;
      assert CanSplice(text, m) && CanSplice(sb1, h);
      assert SpliceAll(sb1, [h], "").text == SpliceAll(sb2, [], "").text;
    }
    assert Ordered(text, [h], 2);
    var built := Build(text, [m, h], 0, "");
    assert built == text[0..0] + lm + Build(text, [h], 2, "") by {
      assert [m, h][1..] == [h];
    }
    assert built[2] == 'p';
  }

  lemma LinkOpening(tag: string, baseUrl: string)
    requires |tag| > 0
    ensures var t := TagWithLink(tag, baseUrl); |t| > 4 && t[0] == '<' && t[2] == 'p'
  {
    TagWithLinkShape(tag, baseUrl);
    var p := LINK_OPEN + baseUrl + SEARCH_PATH;
    assert p[..|LINK_OPEN|] == LINK_OPEN;
    assert TagWithLink(tag, baseUrl)[..|p|] == p;
  }

  /** Splicing descending entities inside a prefix leaves the rest of the text alone. */
  lemma {:induction false} SplicePrefix(p: string, q: string, es: seq<Entry>, baseUrl: string)
    requires Descending(p, es)
    ensures SpliceAll(p + q, es, baseUrl).text == SpliceAll(p, es, baseUrl).text + q
    ensures SpliceAll(p, es, baseUrl).applied == |es|
    ensures SpliceAll(p + q, es, baseUrl).applied == |es|
    decreases |es|
  {
    if |es| > 0 {
      var e := es[0];
      var p0 := p[..e.0.start];
      var mid := TagWithLink(e.1, baseUrl) + p[e.0.end..];
      assert CanSplice(p, e) && SpliceOne(p, e, baseUrl) == p0 + mid by {
        SpliceInside(p, e, baseUrl);
      }
      assert CanSplice(p + q, e) && SpliceOne(p + q, e, baseUrl) == p0 + (mid + q) by {
        SpliceInside(p + q, e, baseUrl);
        assert (p + q)[..e.0.start] == p0;
        assert (p + q)[e.0.end..] == p[e.0.end..] + q;
        AppendAssoc(TagWithLink(e.1, baseUrl), p[e.0.end..], q);
      }
      SplicePrefix(p0, mid, es[1..], baseUrl);
      SplicePrefix(p0, mid + q, es[1..], baseUrl);
      AppendAssoc(SpliceAll(p0, es[1..], baseUrl).text, mid, q);
    }
  }

  lemma {:induction false} OrderedReverseDescending(text: string, es: seq<Entry>)
    requires Ordered(text, es, 0)
    ensures Descending(text, Reverse(es))
    decreases |es|
  {
    if |es| > 0 {
      var init, x := es[..|es| - 1], es[|es| - 1];
      assert es == init + [x];
      OrderedSnoc(text, init, x, 0);
      OrderedReverseDescending(text[..x.0.start], init);
      DescendingSnoc(text, init, x);
    }
  }

  /** The step of OrderedReverseDescending: the last entity, processed first. */
  lemma DescendingSnoc(text: string, init: seq<Entry>, x: Entry)
    requires 0 <= x.0.start <= x.0.end <= |text| && |x.1| > 0
    requires |init| > 0 ==> init[|init| - 1].0.end <= x.0.start
    requires Descending(text[..x.0.start], Reverse(init))
    ensures Descending(text, Reverse(init + [x]))
  {
    ReverseSnoc(init, x);
    var r := Reverse(init + [x]);
    assert r[0] == x && r[1..] == Reverse(init);
    if |init| > 0 {
      assert r[1] == init[|init| - 1];
    }
  }

  /** Splicing the reverse of `init + [x]` splices `x` first, then the reverse of `init`. */
  lemma SpliceReversedSnoc(text: string, init: seq<Entry>, x: Entry, baseUrl: string)
    requires CanSplice(text, x)
    ensures var r := SpliceAll(text, Reverse(init + [x]), baseUrl);
      var r' := SpliceAll(SpliceOne(text, x, baseUrl), Reverse(init), baseUrl);
      r.text == r'.text && r.applied == r'.applied + 1
  {
    ReverseSnoc(init, x);
    var rev := Reverse(init + [x]);
    assert rev[0] == x && rev[1..] == Reverse(init);
  }

  /** When the entities, in insertion order, are ascending, non-overlapping and inside
      the text, splicing them last-to-first replaces every span and keeps all text
      outside the spans: it equals the left-to-right copy-and-substitute builder. */
  lemma {:induction false} ReverseSpliceIsBuild(text: string, es: seq<Entry>, baseUrl: string)
    requires Ordered(text, es, 0)
    ensures SpliceAll(text, Reverse(es), baseUrl).applied == |es|
    ensures SpliceAll(text, Reverse(es), baseUrl).text == Build(text, es, 0, baseUrl)
    decreases |es|
  {
    if |es| == 0 {
      assert Reverse(es) == [];
    } else {
      var init, x := es[..|es| - 1], es[|es| - 1];
      assert es == init + [x];
      OrderedSnoc(text, init, x, 0);
      ReverseSpliceIsBuild(text[..x.0.start], init, baseUrl);
      ReverseSpliceSnoc(text, init, x, baseUrl);
    }
  }

  /** The inductive step of ReverseSpliceIsBuild: from the result for the entities
      before the last one, inside the text before it, to the result for all of them. */
  lemma ReverseSpliceSnoc(text: string, init: seq<Entry>, x: Entry, baseUrl: string)
    requires Ordered(text, init + [x], 0)
    requires 0 <= x.0.start <= |text| && Ordered(text[..x.0.start], init, 0)
    requires SpliceAll(text[..x.0.start], Reverse(init), baseUrl).applied == |init|
    requires SpliceAll(text[..x.0.start], Reverse(init), baseUrl).text == Build(text[..x.0.start], init, 0, baseUrl)
    ensures SpliceAll(text, Reverse(init + [x]), baseUrl).applied == |init| + 1
    ensures SpliceAll(text, Reverse(init + [x]), baseUrl).text == Build(text, init + [x], 0, baseUrl)
  {
    assert |x.1| > 0 && 0 <= x.0.start <= x.0.end <= |text| by {
      OrderedSnoc(text, init, x, 0);
    }
    var p := text[..x.0.start];
    var q := TagWithLink(x.1, baseUrl) + text[x.0.end..];
    assert CanSplice(text, x) && SpliceOne(text, x, baseUrl) == p + q by {
      SpliceInside(text, x, baseUrl);
    }
    assert SpliceAll(text, Reverse(init + [x]), baseUrl).text == SpliceAll(p + q, Reverse(init), baseUrl).text
        && SpliceAll(text, Reverse(init + [x]), baseUrl).applied == SpliceAll(p + q, Reverse(init), baseUrl).applied + 1 by {
      SpliceReversedSnoc(text, init, x, baseUrl);
    }
    assert SpliceAll(p + q, Reverse(init), baseUrl).text == SpliceAll(p, Reverse(init), baseUrl).text + q
        && SpliceAll(p + q, Reverse(init), baseUrl).applied == |init| by {
      OrderedReverseDescending(p, init);
      SplicePrefix(p, q, Reverse(init), baseUrl);
    }
    assert Build(text, init + [x], 0, baseUrl) == Build(p, init, 0, baseUrl) + q by {
      BuildSnoc(text, init, x, 0, baseUrl);
      AppendAssoc(Build(p, init, 0, baseUrl), TagWithLink(x.1, baseUrl), text[x.0.end..]);
    }
  }

  /** An entity that ends inside the text is spliced without clamping. */
  lemma SpliceInside(sb: string, e: Entry, baseUrl: string)
    requires |e.1| > 0 && 0 <= e.0.start <= e.0.end <= |sb|
    ensures CanSplice(sb, e)
    ensures SpliceOne(sb, e, baseUrl) == sb[..e.0.start] + (TagWithLink(e.1, baseUrl) + sb[e.0.end..])
  {
  }

  /** formatEntities on a tweet whose hashtag and mention keys are distinct and whose
      merged entities are ordered equals the left-to-right builder. */
  lemma FormatEntitiesOrdered(text: string, hashtags: seq<Entry>, mentions: seq<Entry>, baseUrl: string)
    requires DistinctKeys(hashtags + mentions)
    requires Ordered(text, hashtags + mentions, 0)
    ensures FormatEntitiesSpec(text, hashtags, mentions, baseUrl) == Build(text, hashtags + mentions, 0, baseUrl)
  {
    MergedOrder(hashtags, mentions);
    ReverseSpliceIsBuild(text, hashtags + mentions, baseUrl);
  }
}
