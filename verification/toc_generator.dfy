/**
 * The table-of-contents generator (`CT_Docs_TOC_Generator`,
 * includes/class-ct-docs-toc-generator.php) apart from the renderer.
 *
 * `generate` finds the headings of a post, gives each one an id that no
 * earlier heading of the post has, rewrites each heading with its id, renders
 * the table of contents, and caches the result under the post id.
 * `Generated` is that result as a function of the content; `Generate` is the
 * loop that builds it, with the cache around it.
 */
module TocGenerator {
  import opened Php
  import opened Host
  import opened Cache
  import opened TocScanner
  import opened TocRender

  // ---------------------------------------------------------------------
  // generate_id

  /** The `k`-th id `generate_id` tries for a slug: the slug itself, then `slug-1`, `slug-2`, ... */
  function Candidate(base: string, k: nat): string {
    if k == 0 then base else base + "-" + NatToString(k)
  }

  /** Different tries give different ids. */
  lemma CandidateInjective(base: string, i: nat, j: nat)
    requires Candidate(base, i) == Candidate(base, j)
    ensures i == j
  {
    if i != 0 && j != 0 {
      var a, b := Candidate(base, i), Candidate(base, j);
      assert a[|base| + 1..] == NatToString(i);
      assert b[|base| + 1..] == NatToString(j);
      NatToStringInjective(i, j);
    }
  }

  /** The ids tried before the `k`-th. */
  ghost function Tried(base: string, k: nat): set<string> {
    set j | 0 <= j < k :: Candidate(base, j)
  }

  ghost function Elements(used: seq<string>): set<string> {
    set x | x in used
  }

  /** The `k`-th try is not among the earlier ones, and adding it gives the tries before the next. */
  lemma TriedNext(base: string, k: nat)
    ensures Candidate(base, k) !in Tried(base, k)
    ensures Tried(base, k + 1) == Tried(base, k) + {Candidate(base, k)}
  {
    if Candidate(base, k) in Tried(base, k) {
      var j :| 0 <= j < k && Candidate(base, j) == Candidate(base, k);
      CandidateInjective(base, j, k);
    }
  }

  /**
   * `id` is the id `generate_id` answers for `base` against `used`: it is not
   * used, and it is the first try that is not, every earlier try being used.
   */
  ghost predicate IsFreshId(id: string, base: string, used: seq<string>) {
    && id !in used
    && exists k: nat :: id == Candidate(base, k) && forall j :: 0 <= j < k ==> Candidate(base, j) in used
  }

  /** The first try from the `k`-th on that is not used. */
  function FreshFrom(base: string, used: seq<string>, k: nat): string
    decreases Elements(used) - Tried(base, k)
  {
    if Candidate(base, k) !in used then Candidate(base, k)
    else
      TriedNext(base, k);
      FreshFrom(base, used, k + 1)
  }

  lemma {:induction false} FreshFromIsFresh(base: string, used: seq<string>, k: nat)
    requires forall j :: 0 <= j < k ==> Candidate(base, j) in used
    ensures IsFreshId(FreshFrom(base, used, k), base, used)
    decreases Elements(used) - Tried(base, k)
  {
    if Candidate(base, k) in used {
      TriedNext(base, k);
      FreshFromIsFresh(base, used, k + 1);
    }
  }

  /** What `generate_id` answers for the slug `base` given the ids used so far. */
  function FreshId(base: string, used: seq<string>): (id: string)
    ensures IsFreshId(id, base, used)
  {
    FreshFromIsFresh(base, used, 0);
    FreshFrom(base, used, 0)
  }

  /** At most one id has that property: the answer is determined. */
  lemma FreshIdIsUnique(a: string, b: string, base: string, used: seq<string>)
    requires IsFreshId(a, base, used) && IsFreshId(b, base, used)
    ensures a == b
  {
    var i: nat :| a == Candidate(base, i) && forall j :: 0 <= j < i ==> Candidate(base, j) in used;
    var k: nat :| b == Candidate(base, k) && forall j :: 0 <= j < k ==> Candidate(base, j) in used;
    if k < i {
      assert Candidate(base, k) in used;
    }
  }

  /** An unused slug is taken as it is; a used one gets the least free suffix. */
  lemma FreshIdOfSlug(base: string, used: seq<string>)
    ensures base !in used ==> FreshId(base, used) == base
    ensures base in used ==> exists k: nat :: k >= 1 && FreshId(base, used) == base + "-" + NatToString(k)
                                                      && forall j :: 1 <= j < k ==> base + "-" + NatToString(j) in used
  {
    var id := FreshId(base, used);
    var k: nat :| id == Candidate(base, k) && forall j :: 0 <= j < k ==> Candidate(base, j) in used;
    if base in used {
      assert k >= 1 && id == base + "-" + NatToString(k);
      forall j | 1 <= j < k ensures base + "-" + NatToString(j) in used {
        assert Candidate(base, j) in used;
      }
    }
  }

  /** `generate_id( $text, $used_ids )` */
  method GenerateId(fmt: Formatting, text: string, used: seq<string>) returns (id: string)
    ensures id == FreshId(fmt.sanitizeTitle(text), used)
  {
    id := fmt.sanitizeTitle(text);
    var base := id;
    var counter: nat := 1;
    while id in used
      invariant id == Candidate(base, counter - 1)
      invariant FreshFrom(base, used, counter - 1) == FreshFrom(base, used, 0)
      decreases Elements(used) - Tried(base, counter - 1)
    {
      TriedNext(base, counter - 1);
      id := base + "-" + NatToString(counter);
      counter := counter + 1;
    }
  }

  // ---------------------------------------------------------------------
  // generate

  /** The array `generate` returns; `items` is `None` where the array has no `'items'` key. */
  datatype TocResult = TocResult(toc: string, content: string, items: Option<seq<TocItem>>)

  /** The cache key of a post: `'toc_' . $post_id`. */
  function TocKey(postId: nat): (key: string)
    ensures StartsWith(key, "toc_") && key[4..] == NatToString(postId)
  {
    "toc_" + NatToString(postId)
  }

  /** Distinct posts are cached under distinct keys. */
  lemma TocKeyInjective(a: nat, b: nat)
    requires TocKey(a) == TocKey(b)
    ensures a == b
  {
    assert TocKey(a)[4..] == NatToString(a);
    NatToStringInjective(a, b);
  }

  /** The ids of some items, in order. */
  function IdsOf(items: seq<TocItem>): (ids: seq<string>)
    ensures |ids| == |items|
    ensures forall i :: 0 <= i < |items| ==> ids[i] == items[i].id
  {
    if |items| == 0 then [] else IdsOf(items[..|items| - 1]) + [items[|items| - 1].id]
  }

  /** The item `generate` makes of a heading, given the ids used before it. */
  function ItemFor(fmt: Formatting, m: Match, used: seq<string>): TocItem {
    var text := fmt.stripAllTags(m.inner);
    TocItem(m.level, text, FreshId(fmt.sanitizeTitle(text), used))
  }

  /** `$toc_items` after the loop has seen the headings `ms`. */
  function ItemsOf(fmt: Formatting, ms: seq<Match>): (items: seq<TocItem>)
    ensures |items| == |ms|
    ensures forall i :: 0 <= i < |ms| ==> items[i].level == ms[i].level && items[i].text == fmt.stripAllTags(ms[i].inner)
  {
    if |ms| == 0 then []
    else
      var init := ItemsOf(fmt, ms[..|ms| - 1]);
      init + [ItemFor(fmt, ms[|ms| - 1], IdsOf(init))]
  }

  /** The headings' ids are pairwise distinct. */
  lemma {:induction false} ItemIdsAreDistinct(fmt: Formatting, ms: seq<Match>)
    ensures forall i, j :: 0 <= i < j < |ms| ==> ItemsOf(fmt, ms)[i].id != ItemsOf(fmt, ms)[j].id
  {
    if |ms| > 0 {
      var init := ItemsOf(fmt, ms[..|ms| - 1]);
      ItemIdsAreDistinct(fmt, ms[..|ms| - 1]);
      var last := ItemFor(fmt, ms[|ms| - 1], IdsOf(init));
      assert last.id !in IdsOf(init);
      forall i | 0 <= i < |init| ensures init[i].id != last.id {
        assert IdsOf(init)[i] == init[i].id;
      }
    }
  }

  /** `sprintf( '<h%d id="%s">%s</h%d>', ... )`: the heading rewritten with its id. */
  function HeadingMarkup(level: Level, idAttr: string, inner: string): string {
    "<h" + NatToString(level) + " id=\"" + idAttr + "\">" + inner + "</h" + NatToString(level) + ">"
  }

  /**
   * `$modified_content` after the loop has seen the headings `ms`: each whole
   * match, wherever it occurs in the content by then, replaced by its
   * rewritten heading.
   */
  function Rewritten(fmt: Formatting, content: string, ms: seq<Match>, items: seq<TocItem>): string
    requires |ms| == |items|
  {
    if |ms| == 0 then content
    else
      var m, item := ms[|ms| - 1], items[|items| - 1];
      ReplaceAll(Rewritten(fmt, content, ms[..|ms| - 1], items[..|items| - 1]), m.full,
                 HeadingMarkup(m.level, fmt.escAttr(item.id), m.inner))
  }

  /** What `generate( $content )` computes when nothing is cached. */
  function Generated(fmt: Formatting, content: string): (r: TocResult)
    ensures Headings(content) == [] <==> r == TocResult("", content, None)
    ensures r.items.Some? ==> |r.items.value| == |Headings(content)| && r.toc != []
  {
    var ms := Headings(content);
    if |ms| == 0 then TocResult("", content, None)
    else
      var items := ItemsOf(fmt, ms);
      TocResult(TocHtml(TocMarkup, fmt, items), Rewritten(fmt, content, ms, items), Some(items))
  }

  lemma ItemsLast(fmt: Formatting, ms: seq<Match>, init: seq<Match>)
    requires |ms| > 0 && ms[..|ms| - 1] == init
    ensures ItemsOf(fmt, ms) == ItemsOf(fmt, init) + [ItemFor(fmt, ms[|ms| - 1], IdsOf(ItemsOf(fmt, init)))]
  {
  }

  lemma RewrittenLast(fmt: Formatting, content: string, ms: seq<Match>, items: seq<TocItem>,
                      init: seq<Match>, initItems: seq<TocItem>)
    requires |ms| == |items| > 0 && ms[..|ms| - 1] == init && items[..|items| - 1] == initItems
    ensures Rewritten(fmt, content, ms, items)
         == ReplaceAll(Rewritten(fmt, content, init, initItems), ms[|ms| - 1].full,
                       HeadingMarkup(ms[|ms| - 1].level, fmt.escAttr(items[|items| - 1].id), ms[|ms| - 1].inner))
  {
  }

  /** One more heading appends its item, its id computed against the ids before it. */
  lemma ItemsStep(fmt: Formatting, ms: seq<Match>, i: nat, items: seq<TocItem>)
    requires i < |ms| && items == ItemsOf(fmt, ms[..i])
    ensures ItemsOf(fmt, ms[..i + 1]) == items + [ItemFor(fmt, ms[i], IdsOf(items))]
  {
    var next := ms[..i + 1];
    assert next[..|next| - 1] == ms[..i] && next[|next| - 1] == ms[i];
    ItemsLast(fmt, next, ms[..i]);
  }

  lemma IdsStep(items: seq<TocItem>, item: TocItem)
    ensures IdsOf(items + [item]) == IdsOf(items) + [item.id]
  {
    assert (items + [item])[..|items|] == items;
  }

  /** One more heading rewrites its whole match in what was built so far. */
  lemma RewrittenStep(fmt: Formatting, content: string, ms: seq<Match>, i: nat, items: seq<TocItem>, item: TocItem)
    requires i < |ms| && |items| == i
    ensures Rewritten(fmt, content, ms[..i + 1], items + [item])
         == ReplaceAll(Rewritten(fmt, content, ms[..i], items), ms[i].full,
                       HeadingMarkup(ms[i].level, fmt.escAttr(item.id), ms[i].inner))
  {
    var next := ms[..i + 1];
    assert next[..|next| - 1] == ms[..i] && next[|next| - 1] == ms[i];
    assert (items + [item])[..|items|] == items;
    RewrittenLast(fmt, content, next, items + [item], ms[..i], items);
  }

  /** The loop over the matches, with `$used_ids` kept beside `$toc_items`. */
  method CollectItems(fmt: Formatting, content: string, ms: seq<Match>) returns (items: seq<TocItem>, modified: string)
    ensures items == ItemsOf(fmt, ms)
    ensures modified == Rewritten(fmt, content, ms, items)
  {
    items, modified := [], content;
    var used: seq<string> := [];
    var i := 0;
    while i < |ms|
      invariant 0 <= i <= |ms|
      invariant items == ItemsOf(fmt, ms[..i]) && used == IdsOf(items)
      invariant modified == Rewritten(fmt, content, ms[..i], items)
    {
      var m := ms[i];
      var text := fmt.stripAllTags(m.inner);
      var id := GenerateId(fmt, text, used);
      var item := TocItem(m.level, text, id);
      ItemsStep(fmt, ms, i, items);
      IdsStep(items, item);
      RewrittenStep(fmt, content, ms, i, items, item);
      used := used + [id];
      items := items + [item];
      var heading := HeadingMarkup(m.level, fmt.escAttr(id), m.inner);
      modified := ReplaceAll(modified, m.full, heading);
      i := i + 1;
    }
    assert ms[..i] == ms;
  }

  /** `generate( $content, $post_id )`, a post id of 0 standing for none. */
  method Generate(cache: TransientCache<TocResult>, fmt: Formatting, content: string, postId: nat) returns (r: TocResult)
    modifies cache
    ensures postId > 0 && Lookup(old(cache.store), TocKey(postId)).Value? ==>
              r == Lookup(old(cache.store), TocKey(postId)).value && cache.store == old(cache.store)
    ensures postId == 0 || Lookup(old(cache.store), TocKey(postId)).False? ==>
              r == Generated(fmt, content)
              && cache.store == if postId > 0 && r.items.Some?
                                then Stored(old(cache.store), TocKey(postId), Value(r), None)
                                else old(cache.store)
  {
    if postId > 0 {
      var cached := cache.Get("toc_" + NatToString(postId));
      if cached.Value? {
        return cached.value;
      }
    }
    var ms := Headings(content);
    if |ms| == 0 {
      return TocResult("", content, None);
    }
    var items, modified := CollectItems(fmt, content, ms);
    var toc := RenderToc(TocMarkup, fmt, items);
    r := TocResult(toc, modified, Some(items));
    if postId > 0 {
      cache.Set("toc_" + NatToString(postId), Value(r), None);
    }
  }

  /** `filter_content( $content )`: only a single `docs` page gets its headings rewritten. */
  method FilterContent(cache: TransientCache<TocResult>, fmt: Formatting, content: string,
                       isSingularDoc: bool, currentId: nat) returns (filtered: string)
    modifies cache
    ensures !isSingularDoc ==> filtered == content && cache.store == old(cache.store)
    ensures isSingularDoc && (currentId == 0 || Lookup(old(cache.store), TocKey(currentId)).False?) ==>
              filtered == Generated(fmt, content).content
              && cache.store == if currentId > 0 && Generated(fmt, content).items.Some?
                                then Stored(old(cache.store), TocKey(currentId), Value(Generated(fmt, content)), None)
                                else old(cache.store)
    ensures isSingularDoc && currentId > 0 && Lookup(old(cache.store), TocKey(currentId)).Value? ==>
              filtered == Lookup(old(cache.store), TocKey(currentId)).value.content
              && cache.store == old(cache.store)
  {
    if !isSingularDoc {
      return content;
    }
    var r := Generate(cache, fmt, content, currentId);
    filtered := r.content;
  }

  /**
   * `get_toc( $post_id )`: the post defaults to the current one; a post that
   * cannot be loaded has no table of contents.
   */
  method GetToc(cache: TransientCache<TocResult>, fmt: Formatting, getPost: nat -> Option<Post>,
                postId: nat, currentId: nat) returns (toc: string)
    modifies cache
    ensures var id := if postId == 0 then currentId else postId;
            getPost(id).None? ==> toc == "" && cache.store == old(cache.store)
    ensures var id := if postId == 0 then currentId else postId;
            getPost(id).Some? && (id == 0 || Lookup(old(cache.store), TocKey(id)).False?) ==>
              var r := Generated(fmt, getPost(id).value.content);
              toc == r.toc
              && cache.store == if id > 0 && r.items.Some?
                                then Stored(old(cache.store), TocKey(id), Value(r), None)
                                else old(cache.store)
    ensures var id := if postId == 0 then currentId else postId;
            getPost(id).Some? && id > 0 && Lookup(old(cache.store), TocKey(id)).Value? ==>
              toc == Lookup(old(cache.store), TocKey(id)).value.toc
              && cache.store == old(cache.store)
  {
    var id := postId;
    if id == 0 {
      id := currentId;
    }
    var post := getPost(id);
    if post.None? {
      return "";
    }
    var r := Generate(cache, fmt, post.value.content, id);
    toc := r.toc;
  }

  /** Once a post's result is cached, the next `generate` for it returns it without looking at the content. */
  lemma GenerateCachesResult(store: Store<TocResult>, fmt: Formatting, content: string, postId: nat)
    requires postId > 0 && Headings(content) != []
    ensures Lookup(Stored(store, TocKey(postId), Value(Generated(fmt, content)), None), TocKey(postId))
         == Value(Generated(fmt, content))
  {
  }
}
