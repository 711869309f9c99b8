/**
 * The parts of `CT_Docs_Core` (includes/class-ct-docs-core.php) that
 * compute something: the `[ct_docs_toc]` shortcode and the read time saved
 * with a post.
 */
module Core {
  import opened Php
  import opened Host
  import opened Plugin

  // ---------------------------------------------------------------------
  // [ct_docs_toc]

  /** The shortcode's attributes once `shortcode_atts` has filled in the defaults. */
  datatype TocAtts = TocAtts(title: string, category: string, columns: string, count: string)

  /** `max( 1, min( 3, $columns ) )` */
  function ClampColumns(columns: int): (c: int)
    ensures 1 <= c <= 3
    ensures 1 <= columns <= 3 ==> c == columns
    ensures columns < 1 ==> c == 1
    ensures columns > 3 ==> c == 3
  {
    var atMost3 := if columns < 3 then columns else 3;
    if atMost3 > 1 then atMost3 else 1
  }

  /**
   * The `get_posts` arguments of the shortcode: every published doc ordered
   * by title, filtered by a `doc_category` slug when one is given.
   */
  datatype ListQuery = ListQuery(categorySlug: Option<string>)

  /** The WordPress calls the shortcode makes besides the formatting ones. */
  datatype ShortcodeHost = ShortcodeHost(
    getPosts: ListQuery -> seq<Post>,   // get_posts
    sanitizeKey: string -> string,      // sanitize_key
    permalink: nat -> string,           // get_permalink
    escUrl: string -> string)           // esc_url

  /** The query for a `category` attribute: `'all'` adds no filter. */
  function ShortcodeQuery(host: ShortcodeHost, category: string): (q: ListQuery)
    ensures q.categorySlug.None? <==> category == "all"
    ensures category != "all" ==> q.categorySlug == Some(host.sanitizeKey(category))
  {
    if category != "all" then ListQuery(Some(host.sanitizeKey(category))) else ListQuery(None)
  }

  /** One list entry: the escaped permalink and the escaped title of a doc. */
  datatype DocLink = DocLink(url: string, title: string)

  /**
   * What the widget shows: the escaped heading (when the title is not
   * empty), the column count of the list, one link per doc and the number
   * of articles (when `count` is `'yes'`).
   */
  datatype TocWidget = TocWidget(heading: Option<string>, columns: int, links: seq<DocLink>, count: Option<nat>)

  /** The link the list shows for a doc. */
  function LinkOf(host: ShortcodeHost, fmt: Formatting, doc: Post): DocLink {
    DocLink(host.escUrl(host.permalink(doc.id)), fmt.escHtml(doc.title))
  }

  /**
   * `shortcode_toc( $atts )`: `None` is the empty output of a query that
   * found no docs.
   */
  method ShortcodeToc(host: ShortcodeHost, fmt: Formatting, atts: TocAtts) returns (widget: Option<TocWidget>)
    ensures var docs := host.getPosts(ShortcodeQuery(host, atts.category));
            && (widget.None? <==> docs == [])
            && (widget.Some? ==>
                  && widget.value.columns == ClampColumns(IntVal(atts.columns))
                  && 1 <= widget.value.columns <= 3
                  && (widget.value.heading.Some? <==> !IsEmptyString(atts.title))
                  && (widget.value.heading.Some? ==> widget.value.heading.value == fmt.escHtml(atts.title))
                  && |widget.value.links| == |docs|
                  && (forall i :: 0 <= i < |docs| ==> widget.value.links[i] == LinkOf(host, fmt, docs[i]))
                  && (widget.value.count.Some? <==> atts.count == "yes")
                  && (widget.value.count.Some? ==> widget.value.count.value == |docs|))
  {
    var query := ListQuery(None);
    if atts.category != "all" {
      query := ListQuery(Some(host.sanitizeKey(atts.category)));
    }
    var docs := host.getPosts(query);
    if docs == [] {
      return None;
    }
    var columns := IntVal(atts.columns);
    columns := ClampColumns(columns);
    var heading := None;
    if !IsEmptyString(atts.title) {
      heading := Some(fmt.escHtml(atts.title));
    }
    var links := [];
    for i := 0 to |docs|
      invariant |links| == i
      invariant forall k :: 0 <= k < i ==> links[k] == LinkOf(host, fmt, docs[k])
    {
      var doc := docs[i];
      links := links + [DocLink(host.escUrl(host.permalink(doc.id)), fmt.escHtml(doc.title))];
    }
    var count := None;
    if atts.count == "yes" {
      count := Some(|docs|);
    }
    widget := Some(TocWidget(heading, columns, links, count));
  }

  // ---------------------------------------------------------------------
  // calculate_read_time

  /**
   * `calculate_read_time( $post_id, $post )`, run when a post is saved:
   * `doingAutosave` is `DOING_AUTOSAVE` and `isRevision` answers
   * `wp_is_post_revision`.
   */
  method CalculateReadTime(meta: PostMeta, fmt: Formatting, wordCount: string -> nat,
                           doingAutosave: bool, isRevision: nat -> bool, postId: nat, post: Post)
    modifies meta
    ensures doingAutosave || isRevision(postId) ==> meta.readTime == old(meta.readTime)
    ensures !doingAutosave && !isRevision(postId) ==>
              meta.readTime == old(meta.readTime)[postId := NatToString(ReadMinutes(WordsOf(fmt, wordCount, post)))]
  {
    if doingAutosave {
      return;
    }
    if isRevision(postId) {
      return;
    }
    var words := wordCount(fmt.stripAllTags(post.content));
    var minutes := ReadMinutes(words);
    meta.Update(postId, minutes);
  }
}
