/**
 * What the plugin receives from WordPress: posts, category terms and the
 * formatting helpers. The helpers are code this model cannot see, so they
 * arrive as function values; a model only relies on them being functions
 * (the same input gives the same output); where a property needs the
 * escaping helpers never to emit a `<`, it says so with `EscapesLt`.
 */
module Host {
  import opened Php

  /** No `<` anywhere in `s`. */
  predicate NoLt(s: string) {
    '<' !in s
  }

  /** The WordPress formatting helpers the plugin calls. */
  datatype Formatting = Formatting(
    sanitizeTitle: string -> string,   // sanitize_title
    stripAllTags: string -> string,    // wp_strip_all_tags
    escAttr: string -> string,         // esc_attr
    escHtml: string -> string          // esc_html
  )

  /** `esc_attr` and `esc_html` encode `<`, so their output never contains one. */
  ghost predicate EscapesLt(fmt: Formatting) {
    forall s :: NoLt(fmt.escAttr(s)) && NoLt(fmt.escHtml(s))
  }

  /** A `docs` post, with the columns the plugin reads. */
  datatype Post = Post(id: nat, title: string, content: string, excerpt: string)

  /** A `doc_category` term. */
  datatype Term = Term(termId: nat, name: string, slug: string)

  /**
   * `get_the_terms( $id, 'doc_category' )`: `None` stands for both the
   * `false` it returns when a post has no terms and a `WP_Error`, which every
   * caller treats alike.
   */
  type TermLookup = nat -> Option<seq<Term>>

  /** The terms a lookup yields, an error or `false` counting as none. */
  function TermsOf(lookup: TermLookup, id: nat): seq<Term> {
    match lookup(id)
    case Some(ts) => ts
    case None => []
  }

  /** `wp_list_pluck( $posts, 'ID' )` */
  function PostIds(posts: seq<Post>): (r: seq<nat>)
    ensures |r| == |posts|
    ensures forall i :: 0 <= i < |posts| ==> r[i] == posts[i].id
  {
    if posts == [] then [] else [posts[0].id] + PostIds(posts[1..])
  }

  /** `wp_list_pluck( $terms, 'term_id' )` */
  function TermIds(terms: seq<Term>): (r: seq<nat>)
    ensures |r| == |terms|
    ensures forall i :: 0 <= i < |terms| ==> r[i] == terms[i].termId
  {
    if terms == [] then [] else [terms[0].termId] + TermIds(terms[1..])
  }
}
