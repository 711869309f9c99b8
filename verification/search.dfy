/**
 * The search endpoint (`CT_Docs_Search`, includes/class-ct-docs-search.php):
 * the term highlighter, the shaping of each found post into a result, and
 * the AJAX handler with its length guard and cache.
 *
 * The SQL query itself is done by the database; it arrives as a function
 * from the term and the limit to the posts it returns, in the order it
 * returns them.
 */
module Search {
  import opened Php
  import opened Host
  import opened Cache

  // ---------------------------------------------------------------------
  // highlight_term

  /**
   * One piece of the text as `preg_replace` passes over it: a byte copied as
   * it is, or a match of the term, which is written back wrapped in
   * `<mark>...</mark>`.
   */
  datatype Segment = Copied(c: char) | Marked(matched: string)

  /** The term matches at the start of `text`, ignoring ASCII case. */
  predicate MatchesAtStart(text: string, term: string) {
    |term| <= |text| && EqualIgnoringCase(text[..|term|], term)
  }

  /**
   * How `/(<term, quoted>)/i` cuts `text`: from left to right, a match is
   * taken wherever one starts and scanning goes on after it; elsewhere one
   * byte is copied. An empty term matches the empty string before every byte
   * and at the end.
   */
  function Segments(text: string, term: string): seq<Segment>
    decreases |text|
  {
    if term == [] then
      [Marked([])] + (if text == [] then [] else [Copied(text[0])] + Segments(text[1..], term))
    else if MatchesAtStart(text, term) then
      [Marked(text[..|term|])] + Segments(text[|term|..], term)
    else if text == [] then []
    else [Copied(text[0])] + Segments(text[1..], term)
  }

  /** The segments written out, each match as `<mark>$1</mark>`. */
  function Render(segs: seq<Segment>): string {
    if segs == [] then []
    else
      (match segs[0]
       case Copied(c) => [c]
       case Marked(s) => "<mark>" + s + "</mark>")
      + Render(segs[1..])
  }

  /** The segments with the inserted `<mark>` and `</mark>` left out. */
  function Plain(segs: seq<Segment>): string {
    if segs == [] then []
    else
      (match segs[0]
       case Copied(c) => [c]
       case Marked(s) => s)
      + Plain(segs[1..])
  }

  /** `highlight_term( $text, $search_term )` */
  function Highlight(text: string, term: string): string {
    Render(Segments(text, term))
  }

  lemma PlainMarkedThen(m: string, rest: seq<Segment>, tail: string)
    requires Plain(rest) == tail
    ensures Plain([Marked(m)] + rest) == m + tail
  {
    assert ([Marked(m)] + rest)[1..] == rest;
  }

  lemma PlainCopiedThen(c: char, rest: seq<Segment>, tail: string)
    requires Plain(rest) == tail
    ensures Plain([Copied(c)] + rest) == [c] + tail
  {
    assert ([Copied(c)] + rest)[1..] == rest;
  }

  /** A first segment giving `head`, then segments giving `tail`, give `head + tail`. */
  lemma PlainStep(first: Segment, rest: seq<Segment>, head: string, tail: string, whole: string)
    requires Plain([first]) == head && Plain(rest) == tail && whole == head + tail
    ensures Plain([first] + rest) == whole
  {
    assert ([first] + rest)[1..] == rest && [first][1..] == [];
  }

  /** The round trip for the empty term, which marks an empty match before every byte. */
  lemma {:induction false} EmptyTermRoundTrip(text: string)
    ensures Plain(Segments(text, [])) == text
    decreases |text|
  {
    if text == [] {
      PlainMarkedThen([], [], []);
      assert [Marked([])] + [] == Segments(text, []);
    } else {
      var rest := Segments(text[1..], []);
      EmptyTermRoundTrip(text[1..]);
      PlainCopiedThen(text[0], [], []);
      PlainStep(Copied(text[0]), rest, [text[0]], text[1..], text);
      PlainMarkedThen([], [Copied(text[0])] + rest, text);
    }
  }

  /** Taking the inserted tags out again gives back the text: highlighting adds markup and nothing else. */
  lemma {:induction false} HighlightRoundTrip(text: string, term: string)
    ensures Plain(Segments(text, term)) == text
    decreases |text|
  {
    if term == [] {
      EmptyTermRoundTrip(text);
    } else if MatchesAtStart(text, term) {
      var n := |term|;
      HighlightRoundTrip(text[n..], term);
      PlainMarkedThen(text[..n], Segments(text[n..], term), text[n..]);
      assert text[..n] + text[n..] == text;
    } else if text != [] {
      HighlightRoundTrip(text[1..], term);
      PlainCopiedThen(text[0], Segments(text[1..], term), text[1..]);
      assert [text[0]] + text[1..] == text;
    }
  }

  /** Every marked piece is the term up to ASCII case, with the text's own casing kept. */
  lemma {:induction false} MarksMatchTerm(text: string, term: string)
    ensures forall i :: 0 <= i < |Segments(text, term)| && Segments(text, term)[i].Marked? ==>
              EqualIgnoringCase(Segments(text, term)[i].matched, term)
    decreases |text|
  {
    var segs := Segments(text, term);
    if term == [] {
      if text != [] {
        MarksMatchTerm(text[1..], term);
        assert segs == [Marked([]), Copied(text[0])] + Segments(text[1..], term);
      }
    } else if MatchesAtStart(text, term) {
      MarksMatchTerm(text[|term|..], term);
    } else if text != [] {
      MarksMatchTerm(text[1..], term);
    }
  }

  /** The term occurs in `text` at `i`, ignoring ASCII case. */
  predicate OccursIgnoringCase(text: string, term: string, i: int) {
    0 <= i && i + |term| <= |text| && EqualIgnoringCase(text[i..i + |term|], term)
  }

  /** An occurrence in the text after its first byte is one in the text, one place further. */
  lemma OccursAfterFirst(text: string, term: string, i: int)
    requires text != []
    ensures OccursIgnoringCase(text[1..], term, i) ==> OccursIgnoringCase(text, term, i + 1)
  {
    if OccursIgnoringCase(text[1..], term, i) {
      assert text[i + 1..i + 1 + |term|] == text[1..][i..i + |term|];
    }
  }

  /** Without a matching segment the rendering is the text itself. */
  lemma {:induction false} RenderWithoutMarks(text: string, term: string)
    requires term != []
    requires forall i :: !OccursIgnoringCase(text, term, i)
    ensures Segments(text, term) == seq(|text|, i requires 0 <= i < |text| => Copied(text[i]))
    ensures Highlight(text, term) == text
    decreases |text|
  {
    if text != [] {
      assert !OccursIgnoringCase(text, term, 0);
      assert !MatchesAtStart(text, term) by {
        if |term| <= |text| {
          assert text[..|term|] == text[0..0 + |term|];
        }
      }
      var rest := text[1..];
      forall i ensures !OccursIgnoringCase(rest, term, i) {
        OccursAfterFirst(text, term, i);
      }
      RenderWithoutMarks(rest, term);
      assert text == [text[0]] + rest;
    }
  }

  /** A non-empty term that does not occur leaves the text unchanged. */
  lemma HighlightWithoutOccurrence(text: string, term: string)
    requires term != []
    requires forall i :: !OccursIgnoringCase(text, term, i)
    ensures Highlight(text, term) == text
  {
    RenderWithoutMarks(text, term);
  }

  /** Where segment `i` starts in the text. */
  function StartOf(segs: seq<Segment>, i: nat): (p: nat)
    requires i <= |segs|
    ensures i == 0 ==> p == 0
  {
    |Plain(segs[..i])|
  }

  lemma PlainCons(x: Segment, rest: seq<Segment>)
    ensures Plain([x] + rest) == Plain([x]) + Plain(rest)
  {
    assert ([x] + rest)[1..] == rest && [x][1..] == [];
  }

  /** Past the first segment, a segment starts where the first one ends plus its place among the rest. */
  lemma StartAfterFirst(x: Segment, rest: seq<Segment>, i: nat)
    requires 1 <= i <= |rest| + 1
    ensures StartOf([x] + rest, i) == |Plain([x])| + StartOf(rest, i - 1)
  {
    assert ([x] + rest)[..i] == [x] + rest[..i - 1];
    PlainCons(x, rest[..i - 1]);
  }

  /** An occurrence `k` bytes into the text is one in what follows those bytes. */
  lemma OccursShift(text: string, term: string, k: nat, j: nat)
    requires k <= |text|
    ensures OccursIgnoringCase(text, term, k + j) <==> OccursIgnoringCase(text[k..], term, j)
  {
    if k + j + |term| <= |text| {
      assert text[k + j..k + j + |term|] == text[k..][j..j + |term|];
    }
  }

  /** The segments after a first one of `k` bytes miss no occurrence if they miss none in the text after those bytes. */
  lemma CopiedAfterFirst(text: string, term: string, k: nat, first: Segment, rest: seq<Segment>)
    requires k <= |text| && |Plain([first])| == k
    requires var tail := text[k..];
             forall j :: 0 <= j < |rest| && rest[j].Copied? ==> !OccursIgnoringCase(tail, term, StartOf(rest, j))
    ensures var segs := [first] + rest;
            forall i :: 1 <= i < |segs| && segs[i].Copied? ==> !OccursIgnoringCase(text, term, StartOf(segs, i))
  {
    var segs := [first] + rest;
    forall i | 1 <= i < |segs| && segs[i].Copied? ensures !OccursIgnoringCase(text, term, StartOf(segs, i)) {
      StartAfterFirst(first, rest, i);
      assert rest[i - 1] == segs[i];
      OccursShift(text, term, k, StartOf(rest, i - 1));
    }
  }

  /**
   * Highlighting misses no occurrence it could take: no byte it copies as it
   * is starts a match of a non-empty term, ignoring ASCII case.
   */
  lemma {:induction false} CopiedAreNotMatches(text: string, term: string)
    requires term != []
    ensures forall i :: 0 <= i < |Segments(text, term)| && Segments(text, term)[i].Copied? ==>
              !OccursIgnoringCase(text, term, StartOf(Segments(text, term), i))
    decreases |text|
  {
    if MatchesAtStart(text, term) {
      var n := |term|;
      var tail := text[n..];
      CopiedAreNotMatches(tail, term);
      PlainMarkedThen(text[..n], [], []);
      assert [Marked(text[..n])] + [] == [Marked(text[..n])];
      CopiedAfterFirst(text, term, n, Marked(text[..n]), Segments(tail, term));
    } else if text != [] {
      var tail := text[1..];
      CopiedAreNotMatches(tail, term);
      PlainCopiedThen(text[0], [], []);
      assert [Copied(text[0])] + [] == [Copied(text[0])];
      CopiedAfterFirst(text, term, 1, Copied(text[0]), Segments(tail, term));
      if |term| <= |text| {
        assert text[0..0 + |term|] == text[..|term|];
      }
    }
  }

  // ---------------------------------------------------------------------
  // search_docs

  /** One entry of the `results` array. */
  datatype SearchResult = SearchResult(
    id: nat, title: string, url: string, excerpt: string, category: string, categorySlug: string)

  /** The WordPress helpers `search_docs` calls besides the formatting ones. */
  datatype SearchHost = SearchHost(
    terms: TermLookup,              // get_the_terms( $id, 'doc_category' )
    permalink: nat -> string,       // get_permalink
    trimWords: string -> string)    // wp_trim_words( $text, 20, '...' )

  /** The category name and slug shown for a post: its first term's, or empty. */
  function CategoryOf(terms: seq<Term>): (r: (string, string))
    ensures terms == [] ==> r == ("", "")
    ensures terms != [] ==> r == (terms[0].name, terms[0].slug)
  {
    if terms == [] then ("", "") else (terms[0].name, terms[0].slug)
  }

  /** The excerpt shown for a post, before highlighting. */
  function ExcerptOf(host: SearchHost, fmt: Formatting, post: Post): (e: string)
    ensures !IsEmptyString(post.excerpt) ==> e == post.excerpt
    ensures IsEmptyString(post.excerpt) ==> e == host.trimWords(fmt.stripAllTags(post.content))
  {
    if !IsEmptyString(post.excerpt) then post.excerpt
    else host.trimWords(fmt.stripAllTags(post.content))
  }

  /** The result a found post turns into. */
  function ResultFor(host: SearchHost, fmt: Formatting, term: string, post: Post): SearchResult {
    var (category, slug) := CategoryOf(TermsOf(host.terms, post.id));
    SearchResult(post.id, post.title, host.permalink(post.id),
                 Highlight(ExcerptOf(host, fmt, post), term), category, slug)
  }

  /** The loop of `search_docs` over the posts the query returned. */
  method SearchDocs(host: SearchHost, fmt: Formatting, term: string, posts: seq<Post>) returns (results: seq<SearchResult>)
    ensures |results| == |posts|
    ensures forall i :: 0 <= i < |posts| ==> results[i] == ResultFor(host, fmt, term, posts[i])
  {
    results := [];
    for i := 0 to |posts|
      invariant |results| == i
      invariant forall k :: 0 <= k < i ==> results[k] == ResultFor(host, fmt, term, posts[k])
    {
      var post := posts[i];
      var terms := host.terms(post.id);
      var category, categorySlug := "", "";
      if terms.Some? && terms.value != [] {
        category := terms.value[0].name;
        categorySlug := terms.value[0].slug;
      }
      var excerpt := if !IsEmptyString(post.excerpt) then post.excerpt
                     else host.trimWords(fmt.stripAllTags(post.content));
      excerpt := Highlight(excerpt, term);
      results := results + [SearchResult(post.id, post.title, host.permalink(post.id), excerpt, category, categorySlug)];
    }
  }

  /** Every result's excerpt, with the inserted tags taken out, is the post's excerpt. */
  lemma ResultKeepsExcerpt(host: SearchHost, fmt: Formatting, term: string, post: Post)
    ensures Render(Segments(ExcerptOf(host, fmt, post), term)) == ResultFor(host, fmt, term, post).excerpt
    ensures Plain(Segments(ExcerptOf(host, fmt, post), term)) == ExcerptOf(host, fmt, post)
  {
    HighlightRoundTrip(ExcerptOf(host, fmt, post), term);
  }

  // ---------------------------------------------------------------------
  // ajax_search

  /** What the handler sends back: `wp_send_json_error` or `wp_send_json_success`. */
  datatype Response = Failure(message: string) | Success(results: seq<SearchResult>)

  /** `absint( $_POST['limit'] )`, or 8 when no limit is posted. */
  function LimitOf(posted: Option<int>): (limit: nat)
    ensures posted.None? ==> limit == 8
    ensures posted.Some? ==> limit as int == posted.value || limit as int == -posted.value
  {
    if posted.None? then 8 else if posted.value < 0 then -posted.value else posted.value
  }

  /** The cache key of a search, with `md5` as given. */
  function SearchKey(md5: string -> string, term: string, limit: nat): string {
    "search_" + md5(term + "_" + NatToString(limit))
  }

  /** Text joined to digits by `_` splits back at its last `_`. */
  lemma SplitAtLastUnderscore(t1: string, n1: string, t2: string, n2: string)
    requires '_' !in n1 && '_' !in n2
    requires t1 + "_" + n1 == t2 + "_" + n2
    ensures t1 == t2 && n1 == n2
  {
    var s := t1 + "_" + n1;
    assert s[|t1|] == '_' && s[|s| - |n1|..] == n1;
    assert s[|t2|] == '_' && s[|s| - |n2|..] == n2;
    assert |n1| == |n2|;
    assert s[..|t1|] == t1 && s[..|t2|] == t2;
  }

  /**
   * Two searches share a cache entry only when they have the same term and
   * the same limit, as far as `md5` tells its inputs apart.
   */
  lemma SearchKeyInjective(md5: string -> string, t1: string, l1: nat, t2: string, l2: nat)
    requires forall x, y :: md5(x) == md5(y) ==> x == y
    requires SearchKey(md5, t1, l1) == SearchKey(md5, t2, l2)
    ensures t1 == t2 && l1 == l2
  {
    var a, b := t1 + "_" + NatToString(l1), t2 + "_" + NatToString(l2);
    assert SearchKey(md5, t1, l1)[7..] == md5(a);
    assert SearchKey(md5, t2, l2)[7..] == md5(b);
    SplitAtLastUnderscore(t1, NatToString(l1), t2, NatToString(l2));
    NatToStringInjective(l1, l2);
  }

  /**
   * `ajax_search()`: the request is the nonce check's outcome, the
   * sanitized term and the posted limit; `query` is the database search.
   * Each `wp_send_json_*` call ends the request.
   */
  method AjaxSearch(cache: TransientCache<seq<SearchResult>>, host: SearchHost, fmt: Formatting,
                    md5: string -> string, query: (string, nat) -> seq<Post>,
                    nonceOk: bool, term: string, postedLimit: Option<int>) returns (response: Response)
    modifies cache
    ensures !nonceOk ==> response == Failure("Security check failed.") && cache.store == old(cache.store)
    ensures nonceOk && |term| < 2 ==> response == Success([]) && cache.store == old(cache.store)
    ensures nonceOk && |term| >= 2 ==>
              var key := SearchKey(md5, term, LimitOf(postedLimit));
              if Lookup(old(cache.store), key).Value? then
                response == Success(Lookup(old(cache.store), key).value) && cache.store == old(cache.store)
              else
                var posts := query(term, LimitOf(postedLimit));
                && response.Success?
                && |response.results| == |posts|
                && (forall i :: 0 <= i < |posts| ==> response.results[i] == ResultFor(host, fmt, term, posts[i]))
                && cache.store == Stored(old(cache.store), key, Value(response.results), None)
  {
    if !nonceOk {
      return Failure("Security check failed.");
    }
    var limit := LimitOf(postedLimit);
    if |term| < 2 {
      return Success([]);
    }
    var key := "search_" + md5(term + "_" + NatToString(limit));
    var cached := cache.Get(key);
    if cached.Value? {
      return Success(cached.value);
    }
    var results := SearchDocs(host, fmt, term, query(term, limit));
    cache.Set(key, Value(results), None);
    response := Success(results);
  }
}
