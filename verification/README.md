# Contempo Docs (ct-docs) — a Dafny model of its core

Contempo Docs is a WordPress documentation plugin. Its documents are `docs` posts, grouped by a `doc_category` taxonomy. For each document it builds a table of contents from the headings: every `<h2>`–`<h5>` gets a unique anchor id, the heading is rewritten with that id, a nested list of links is rendered, and the result is cached per post. The plugin also offers:

- a live search that highlights the searched term;
- a read time per document (200 words a minute, at least one minute);
- "related docs" taken from the same category, topped up from the others;
- a `[ct_docs_toc]` shortcode listing every doc;
- two extra columns on the admin list of docs.

This project models those parts in Dafny and proves what they promise.

| file | module | what it models |
|---|---|---|
| `php.dfy` | `Php` | the PHP built-ins the code leans on: `strpos(...) === 0`, `strtolower`, `empty()` on strings, integer-to-string conversion, `str_replace` |
| `host.dfy` | `Host` | what WordPress hands the plugin: posts, terms, and the formatting helpers as function values |
| `cache.dfy` | `Cache` | `CT_Docs_Cache` over a transient store held as a map |
| `toc_scanner.dfy` | `TocScanner` | the heading pattern of `generate`, as an explicit left-to-right scanner |
| `tag_count.dfy` | `TagCount` | counting occurrences of a tag in a string, and how counts add up over concatenation |
| `toc_render.dfy` | `TocRender` | `render_toc`: the depth-cursor loop and the tag counts of its output |
| `toc_generator.dfy` | `TocGenerator` | `generate_id`, `generate`, `filter_content`, `get_toc` |
| `toc_rewrite.dfy` | `TocRewrite` | what the rewrite loop of `generate` does to a post's headings: a lone heading, attributes, a heading repeated word for word |
| `search.dfy` | `Search` | `highlight_term`, the result shaping of `search_docs`, and `ajax_search` |
| `plugin.dfy` | `Plugin` | ct-docs.php: the autoloader, `ct_docs_get_read_time`, `ct_docs_get_related` |
| `core.dfy` | `Core` | `shortcode_toc` and `calculate_read_time` of `CT_Docs_Core` |
| `admin.dfy` | `Admin` | `add_columns` and `sortable_columns` of `CT_Docs_Admin` |

The code is imperative where the PHP is:

- **Classes and methods.** The transient store is a class whose methods reassign its map. The post meta is a class too. The loops of `generate`, `generate_id`, `render_toc`, `search_docs`, `shortcode_toc` and `add_columns` are `while`/`for` loops.
- **Specification functions.** Each loop is proved equal to a function of its inputs (`Generated`, `FreshId`, `TocHtml`, `ResultFor`, `AddedColumns`).
- **Properties.** The properties are proved about those functions.

The WordPress helpers are code this model cannot see. They are parameters: `sanitize_title`, `wp_strip_all_tags`, `esc_attr`, `esc_html`, `esc_url`, `sanitize_key`, `wp_trim_words`, `str_word_count`, `get_permalink`, `get_the_terms`, `get_posts`, `get_post`, `wp_is_post_revision`, `md5` and `file_exists`. A proof relies only on them being functions. Three properties state one more assumption as a hypothesis:

- the tag counts of the table of contents assume that `esc_attr` and `esc_html` never output a `<` (`EscapesLt`);
- the bounds on related docs assume that `get_posts` honours `posts_per_page` and `post__not_in`, and that it never returns the same post twice (`HonoursQuery`); "no post appears twice" in `RelatedExcludesPost` rests on that last part for the same-category list;
- `SearchKeyInjective` assumes an `md5` that never maps two inputs to one digest. No real hash has that property, so what the lemma shows is that the encoding `term . '_' . limit` is injective; two searches can still share a key through an `md5` collision.

Behaviour of the code a reader might not expect, modelled as written:

- **Empty slugs.** An empty slug gets no fallback anchor. A heading whose slug is empty gets the id `""`, and the next such heading gets `-1`.
- **Start level.** The renderer starts its depth cursor at level 2, not at the smallest level present. It clamps nothing.
- **Sibling items.** Sibling `<li>` elements are never closed (`FlatTocClosesOneItem`).
- **Closing tags.** A heading is closed by the first closing tag of any level 2–5, not only by its own level (`MismatchedCloseIsAccepted`).
- **Attributes.** Attributes on an opening heading tag are dropped when the heading is rewritten (`AttributesAreDropped`).
- **Identical headings.** `str_replace` rewrites every copy of a heading's markup at once. Two identical headings therefore both get the first one's id in the content, although `items` lists `install` and `install-1` (`DuplicateHeadingsShareFirstId`). `Rewritten` replaces every occurrence.

## Model

| member | source | states |
|---|---|---|
| `Php.ReplaceAll` | includes/class-ct-docs-toc-generator.php:70 | `str_replace` with one search string: an empty search string, or one that does not occur, leaves the subject unchanged |
| `Php.ReplaceAllAround` | includes/class-ct-docs-toc-generator.php:70 | when the search string first occurs right after `a`, the result is `a`, the replacement, and `str_replace` of what follows that occurrence |
| `Php.ReplaceAllOnce` | includes/class-ct-docs-toc-generator.php:70 | a search string that occurs exactly once is replaced there, and every other byte is kept |
| `Php.NatToStringRoundTrip` | includes/class-ct-docs-toc-generator.php:27 | the decimal text PHP writes for a whole number reads back as that number |
| `Php.NatToStringInjective` | includes/class-ct-docs-toc-generator.php:27 | different numbers are written as different texts |
| `Host.TermIds` | ct-docs.php:155 | `wp_list_pluck( $terms, 'term_id' )`: one id per term, in order |
| `Host.PostIds` | ct-docs.php:179 | `wp_list_pluck( $related, 'ID' )`: one id per post, in order |
| `Cache.TransientName` | includes/class-ct-docs-cache.php:20-35 | every key reaches the store as `ct_docs_` followed by the key |
| `Cache.DurationOf` | includes/class-ct-docs-cache.php:25-48 | a null duration becomes 1800 seconds; a given one is kept |
| `Cache.Lookup` | includes/class-ct-docs-cache.php:33-35 | `get` of a key whose transient is absent answers `false` |
| `Cache.Stored` | includes/class-ct-docs-cache.php:45-50 | `set` writes the value with its duration under the prefixed name and changes no other transient |
| `Cache.Removed` | includes/class-ct-docs-cache.php:58-60 | `delete` removes exactly the prefixed name and keeps every other transient as it was |
| `Cache.Flushed` | includes/class-ct-docs-cache.php:65-75 | `flush_all` keeps exactly the transients whose name does not start with the prefix, unchanged |
| `Cache.TransientCache.Get` | includes/class-ct-docs-cache.php:33-35 | the method answers what `Lookup` says for the current store |
| `Cache.TransientCache.Set` | includes/class-ct-docs-cache.php:45-50 | the new store is `Stored` of the old one |
| `Cache.TransientCache.Delete` | includes/class-ct-docs-cache.php:58-60 | the new store is `Removed` of the old one |
| `Cache.TransientCache.FlushAll` | includes/class-ct-docs-cache.php:65-75 | the new store is `Flushed` of the old one |
| `Cache.TransientCache.Remember` | includes/class-ct-docs-cache.php:85-94 | the value returned and the new store are those of `Remembered` |
| `Cache.RememberHit` | includes/class-ct-docs-cache.php:85-93 | on a hit, `remember` returns the stored value and leaves the store as it was, whatever the callback |
| `Cache.RememberMiss` | includes/class-ct-docs-cache.php:88-91 | on a miss, it returns the callback's value, stores it with the resolved duration, and a later `get` finds it |
| `Cache.RememberTwice` | includes/class-ct-docs-cache.php:85-94 | once a value other than `false` is remembered, remembering the key again is a hit that changes nothing |
| `Cache.StoredFalseIsMiss` | includes/class-ct-docs-cache.php:88 | a stored `false` reads like a miss, and `remember` behaves exactly as if nothing were stored |
| `Cache.FlushForgetsEveryKey` | includes/class-ct-docs-cache.php:65-75 | after `flush_all`, `get` answers `false` for every key |
| `TocScanner.FindGtIsFirst` | includes/class-ct-docs-toc-generator.php:35 | `[^>]*>` stops at the first `>`, and fails only when there is none |
| `TocScanner.FindCloseIsFirst` | includes/class-ct-docs-toc-generator.php:35 | the lazy `(.*?)` ends at the first closing `</h2..5>`, and fails only when a newline comes before every closing tag |
| `TocScanner.MatchAtIsHeading` | includes/class-ct-docs-toc-generator.php:35 | a match at a position exists exactly when the pattern's declarative reading holds there; the match has the opening digit's level, the matched bytes and the inner markup |
| `TocScanner.HeadingIsFound` | includes/class-ct-docs-toc-generator.php:35 | every heading in the declarative sense is found, with the same ends |
| `TocScanner.Scan` | includes/class-ct-docs-toc-generator.php:36 | `preg_match_all` gives matches in document order that do not overlap |
| `TocScanner.ScanFindsMatches` | includes/class-ct-docs-toc-generator.php:36 | every entry is what the pattern matches at the entry's start |
| `TocScanner.ScanSkipsNothing` | includes/class-ct-docs-toc-generator.php:36 | no match starts before the first entry |
| `TocScanner.ScanSkipsNoGap` | includes/class-ct-docs-toc-generator.php:36 | no match starts between two neighbouring entries |
| `TocScanner.ScanLeavesNothing` | includes/class-ct-docs-toc-generator.php:36 | no match starts after the last entry |
| `TocScanner.HeadingsAreWellFormed` | includes/class-ct-docs-toc-generator.php:35-50 | each heading is a piece of the content that opens with `<h` and the level digit (2–5, either case of `h`) and ends with a closing tag of level 2–5 |
| `TocScanner.MismatchedCloseIsAccepted` | includes/class-ct-docs-toc-generator.php:35 | `<h2>A</h5>` is matched at level 2 |
| `TocScanner.InnerStopsAtFirstClose` | includes/class-ct-docs-toc-generator.php:35 | in `<h2>A</h3>B</h2>` the heading ends at `</h3>` |
| `TocScanner.NewlineBreaksHeading` | includes/class-ct-docs-toc-generator.php:35 | a newline inside a heading stops it from matching |
| `TocGenerator.CandidateInjective` | includes/class-ct-docs-toc-generator.php:102-107 | the ids `generate_id` tries (`base`, `base-1`, `base-2`, ...) are all different |
| `TocGenerator.FreshId` | includes/class-ct-docs-toc-generator.php:97-111 | the id is not used, and it is the first try all of whose earlier tries are used |
| `TocGenerator.FreshIdIsUnique` | includes/class-ct-docs-toc-generator.php:97-111 | at most one id has that property, so the answer is determined |
| `TocGenerator.FreshIdOfSlug` | includes/class-ct-docs-toc-generator.php:99-108 | an unused slug is the id itself; a used one gets `slug-k` for the least `k >= 1` not used |
| `TocGenerator.GenerateId` | includes/class-ct-docs-toc-generator.php:97-111 | the counter loop returns `FreshId` of the sanitized text |
| `TocGenerator.TocKey` | includes/class-ct-docs-toc-generator.php:27 | the cache key is `toc_` followed by the post id's digits |
| `TocGenerator.TocKeyInjective` | includes/class-ct-docs-toc-generator.php:27 | different posts are cached under different keys |
| `TocGenerator.ItemsOf` | includes/class-ct-docs-toc-generator.php:49-61 | one item per match, in order, with the match's level and its stripped inner markup as text |
| `TocGenerator.ItemIdsAreDistinct` | includes/class-ct-docs-toc-generator.php:51-53 | the ids of one run are pairwise distinct |
| `TocGenerator.Generated` | includes/class-ct-docs-toc-generator.php:34-80 | no headings gives `toc` `''`, the content unchanged and no `items`; otherwise one item per heading and a non-empty `toc` |
| `TocGenerator.ItemsStep` | includes/class-ct-docs-toc-generator.php:49-59 | one more heading appends one item, whose id is computed against the ids of the items before it |
| `TocGenerator.RewrittenStep` | includes/class-ct-docs-toc-generator.php:62-70 | one more heading replaces every copy of its whole match, in the content built so far, by the heading rewritten with its id |
| `TocGenerator.CollectItems` | includes/class-ct-docs-toc-generator.php:45-71 | the loop builds `ItemsOf` the matches, and content with each whole match replaced by its rewritten heading |
| `TocGenerator.Generate` | includes/class-ct-docs-toc-generator.php:24-88 | with a post id and a cached value, returns it and writes nothing; otherwise returns `Generated`, and caches it under the post's key only when there is a post id and there were headings |
| `TocGenerator.FilterContent` | includes/class-ct-docs-toc-generator.php:173-180 | outside a single doc, the content is returned unchanged and the cache untouched; on one, a hit returns the cached content and leaves the cache as it was, and a miss returns the generated content and caches the result under the post's key exactly when there is a post id and there were headings |
| `TocGenerator.GetToc` | includes/class-ct-docs-toc-generator.php:188-200 | a post that cannot be loaded gives `''` and leaves the cache as it was; a hit returns the cached `toc` and changes nothing; a miss returns the generated `toc` and caches the result under the post's key exactly when there is a post id and there were headings |
| `TocGenerator.GenerateCachesResult` | includes/class-ct-docs-toc-generator.php:26-31 | after a miss has stored the result, the next `get` of the post's key finds it |
| `TocRewrite.RewritesOnlyHeading` | includes/class-ct-docs-toc-generator.php:45-80 | a post with one heading whose markup occurs nowhere else gets one item with the slug as id, and exactly that heading is replaced by `<hN id="...">inner</hN>`; the bytes around it are kept |
| `TocRewrite.TagMatches` | includes/class-ct-docs-toc-generator.php:35 | `<hD attrs>text</hD>`, with no `>` in the attributes and no `<` or newline in the text, is matched at the digit's level with the text as inner markup |
| `TocRewrite.TwiceHeadings` | includes/class-ct-docs-toc-generator.php:35-36 | the same heading written twice in a row gives two matches, one per copy |
| `TocRewrite.SecondId` | includes/class-ct-docs-toc-generator.php:97-111 | a slug already used once gets `slug-1` |
| `TocRewrite.TwiceItems` | includes/class-ct-docs-toc-generator.php:49-59 | two headings with the same level and inner markup get the items `slug` and `slug-1` |
| `TocRewrite.TwiceReplaced` | includes/class-ct-docs-toc-generator.php:70 | `str_replace` on two copies of its search string replaces both |
| `TocRewrite.AttributesAreDropped` | includes/class-ct-docs-toc-generator.php:62-70 | a lone heading whose opening tag carries attributes is rewritten as `<hD id="...">text</hD>`: the attributes are gone |
| `TocRewrite.DuplicateHeadingsShareFirstId` | includes/class-ct-docs-toc-generator.php:49-70 | for the same heading written twice, `items` holds `slug` and `slug-1`, while the content holds two copies carrying `slug` and none carrying `slug-1` |
| `TocRender.LevelAfter` | includes/class-ct-docs-toc-generator.php:130-133 | the depth cursor is always between 2 and 5 |
| `TocRender.TocHtml` | includes/class-ct-docs-toc-generator.php:119-122 | the output is empty exactly when there are no items |
| `TocRender.OpenSublists` | includes/class-ct-docs-toc-generator.php:136-139 | the first nesting loop writes one sub-list opening per level the item is deeper, and ends at the item's level when it is deeper |
| `TocRender.CloseSublists` | includes/class-ct-docs-toc-generator.php:141-144 | the second nesting loop writes one `</ul></li>` per level the item is shallower, and ends at the item's level when it is shallower |
| `TocRender.CloseLists` | includes/class-ct-docs-toc-generator.php:157-160 | the final loop writes `current_level - 1` copies of `</li></ul>` |
| `TocRender.WriteItem` | includes/class-ct-docs-toc-generator.php:133-151 | one pass of the item loop appends the item's step and leaves the cursor at the item's level |
| `TocRender.WriteItems` | includes/class-ct-docs-toc-generator.php:130-154 | the item loop appends the steps of all items in order |
| `TocRender.RenderToc` | includes/class-ct-docs-toc-generator.php:119-165 | the method's output is `TocHtml` of the items |
| `TocRender.RisesMinusFalls` | includes/class-ct-docs-toc-generator.php:130-144 | the levels climbed less the levels descended are the final cursor less 2 |
| `TocRender.ItemLinkTally` | includes/class-ct-docs-toc-generator.php:146-151 | an item's link opens one `<li` and writes no `<ul`, `</ul>` or `</li>`, given escaping that outputs no `<` |
| `TocRender.StepTally` | includes/class-ct-docs-toc-generator.php:136-151 | a step opens one `<ul` per level climbed, writes one `</ul>` and one `</li>` per level descended, and opens one `<li` |
| `TocRender.BodyTally` | includes/class-ct-docs-toc-generator.php:132-154 | the item loop as a whole: levels climbed, levels descended, and one `<li` per item |
| `TocRender.HeaderTally` | includes/class-ct-docs-toc-generator.php:124-128 | the header opens exactly one list and nothing else |
| `TocRender.TocTally` | includes/class-ct-docs-toc-generator.php:119-162 | the four tag counts of the whole output |
| `TocRender.TocTagCounts` | includes/class-ct-docs-toc-generator.php:119-162 | `<ul` and `</ul>` balance; `</li>` is written as often as `</ul>`; `<li` once per item |
| `TocRender.FlatTocClosesOneItem` | includes/class-ct-docs-toc-generator.php:132-160 | `n` items all at level 2 open `n` `<li` but write a single `</li>` |
| `TocRender.TocMarkupCounted` | includes/class-ct-docs-toc-generator.php:124-162 | the plugin's own strings have the shape the counting needs |
| `TocRender.RenderedTocTagCounts` | includes/class-ct-docs-toc-generator.php:119-162 | for the plugin's own strings, `<ul`/`</ul>` balance and `<li` appears once per item |
| `Search.HighlightRoundTrip` | includes/class-ct-docs-search.php:131-134 | taking the inserted `<mark>`/`</mark>` out of the highlighted text gives back the text |
| `Search.MarksMatchTerm` | includes/class-ct-docs-search.php:132-133 | each marked piece equals the term up to ASCII case, and keeps the text's own casing |
| `Search.CopiedAreNotMatches` | includes/class-ct-docs-search.php:132-133 | for a non-empty term, no byte copied as it is starts an occurrence of the term ignoring ASCII case: every match the scan meets is marked |
| `Search.RenderWithoutMarks` | includes/class-ct-docs-search.php:133 | a non-empty term that occurs nowhere (ignoring case) splits the text into copied bytes only |
| `Search.HighlightWithoutOccurrence` | includes/class-ct-docs-search.php:133 | text without an occurrence of the term comes back unchanged |
| `Search.CategoryOf` | includes/class-ct-docs-search.php:94-101 | the category name and slug are those of the first term, or empty strings when there is none |
| `Search.ExcerptOf` | includes/class-ct-docs-search.php:104-106 | the post's excerpt when `empty()` is false for it, else the trimmed, tag-stripped content |
| `Search.SearchDocs` | includes/class-ct-docs-search.php:90-121 | one result per post, in query order, each equal to `ResultFor` the post |
| `Search.ResultKeepsExcerpt` | includes/class-ct-docs-search.php:104-115 | a result's excerpt is the highlighted excerpt, and removing the marks from it gives back the excerpt |
| `Search.LimitOf` | includes/class-ct-docs-search.php:36 | 8 when no limit is posted, else the absolute value of the posted one |
| `Search.SearchKeyInjective` | includes/class-ct-docs-search.php:43 | the encoding `term . '_' . limit` is injective: with an `md5` assumed to tell its inputs apart, two searches share a cache key only when term and limit are both equal |
| `Search.AjaxSearch` | includes/class-ct-docs-search.php:28-57 | a failed nonce gives the error; a term shorter than 2 bytes gives no results and touches no cache; a hit returns the cached results; a miss returns the search results and caches them with the default duration |
| `Plugin.Autoload` | ct-docs.php:30-60 | a class without the `CT_Docs_` prefix loads nothing; otherwise the first of includes/, elementor/ and admin/ whose file exists is loaded, and nothing when none exists |
| `Plugin.Candidates` | ct-docs.php:40-57 | three files are tried, all under the plugin directory, and they are pairwise different |
| `Plugin.FileStemShape` | ct-docs.php:37-38 | the file stem holds no `_` and no upper-case letter |
| `Plugin.FileStemOfPrefixed` | ct-docs.php:37-38 | for a prefixed name whose rest holds no `CT_Docs_`, the stem is the rest, lower-cased, with `_` turned into `-` |
| `Plugin.CeilDiv` | ct-docs.php:128 | `ceil( a / b )` for whole numbers: the least `r` with `a <= r * b` |
| `Plugin.ReadMinutes` | ct-docs.php:127-128 | at least 1; 1 up to 200 words; otherwise the least number of minutes that covers the words at 200 a minute |
| `Plugin.LeadingDigits` | ct-docs.php:133 | the longest prefix made of digits |
| `Plugin.IntVal` | ct-docs.php:133 | the value read is never negative, and is 0 when the string does not start with a digit |
| `Plugin.IntValOfDigitsThen` | includes/class-ct-docs-core.php:162 | digits followed by a non-digit, `"12px"` say, read as the digits' value |
| `Plugin.EmptyIntVal` | ct-docs.php:124-133 | a meta value `empty()` counts as empty reads as 0 |
| `Plugin.StoredReadTimeReadsBack` | ct-docs.php:128-133 | a read time the plugin stores is not `empty()`, and `intval` reads it back |
| `Plugin.PostMeta.Get` | ct-docs.php:122 | unset meta reads as `''` |
| `Plugin.PostMeta.Update` | ct-docs.php:129 | `update_post_meta` stores the number's decimal text for that post and nothing else |
| `Plugin.GetReadTime` | ct-docs.php:117-134 | a stored non-empty value is returned as read by `intval` and nothing is written; otherwise a loadable post gets its read time computed, stored and returned; a post that cannot be loaded gives 0 |
| `Plugin.Related` | ct-docs.php:143-195 | no terms gives no related docs; otherwise the same-category posts come first, followed, when they are fewer than `limit`, by exactly what the top-up query returns |
| `Plugin.RelatedAtMostLimit` | ct-docs.php:158-194 | with a positive limit and a query that honours its arguments, at most `limit` posts |
| `Plugin.RelatedExcludesPost` | ct-docs.php:162-191 | with a query that honours `post__not_in` and never returns a post twice, the post itself is never related, and no post appears twice |
| `Core.ClampColumns` | includes/class-ct-docs-core.php:163 | the column count is clamped into 1..3 and kept when already there |
| `Core.ShortcodeQuery` | includes/class-ct-docs-core.php:149-157 | `'all'` adds no category filter; any other value filters by its `sanitize_key` slug |
| `Core.ShortcodeToc` | includes/class-ct-docs-core.php:130-188 | no docs gives empty output; otherwise the clamped column count, a heading exactly when the title is not `empty()`, one escaped link per doc in query order, and the article count exactly when `count` is `'yes'` |
| `Core.CalculateReadTime` | includes/class-ct-docs-core.php:357-373 | an autosave or a revision writes no meta; otherwise the post's read time is stored under its id and nothing else changes |
| `Admin.Put` | admin/class-ct-docs-admin.php:110 | `$a[$k] = $v`: an existing key leaves the key order as it was, a new key is appended at the end, and in both cases the key maps to the value and every other key keeps its value |
| `Admin.PutValid` | admin/class-ct-docs-admin.php:110 | setting a key keeps the array well formed |
| `Admin.AddColumns` | admin/class-ct-docs-admin.php:106-120 | the loop builds `AddedColumns` of the input |
| `Admin.AddedKeepsOther` | admin/class-ct-docs-admin.php:109-111 | every column other than the two added ones is in the output exactly when it was in the input, with its value |
| `Admin.AddColumnsKeepsColumns` | admin/class-ct-docs-admin.php:109-111 | every input column is kept; every one but `doc_category` and `read_time` keeps its value |
| `Admin.AddedAddsAfterTitle` | admin/class-ct-docs-admin.php:113-116 | when the input has neither added key, `doc_category` and `read_time` are present exactly after a `title`, labelled `Category` and `Read Time` |
| `Admin.AddedKeysAreReference` | admin/class-ct-docs-admin.php:109-117 | when the input has neither added key, the output keys are the input keys with `doc_category`, `read_time` right after `title` |
| `Admin.AddColumnsAfterTitle` | admin/class-ct-docs-admin.php:109-117 | for input `pre, title, post` without the added keys, the output is `pre, title, doc_category, read_time, post` with every value kept and the two new labels |
| `Admin.AddColumnsWithoutTitle` | admin/class-ct-docs-admin.php:106-120 | without a `title` column the output equals the input |
| `Admin.SortableColumns` | admin/class-ct-docs-admin.php:157-160 | `read_time` is set to `'read_time'` (appended when new, in place otherwise), and every other entry is unchanged |

## Left out

- WordPress itself:
  - the helpers listed above are function parameters and are not modelled;
  - `get_the_terms` answering `false` and answering a `WP_Error` are one case (`None`);
  - `EscapesLt`, `HonoursQuery` (including its no-duplicates part) and the injective `md5` of `SearchKeyInjective` are hypotheses about WordPress and PHP, not proved; the last is false of any real hash, so a cache-key collision through `md5` is not ruled out.
- Transient expiry, the timeout rows, and the SQL `DELETE ... LIKE` of `flush_all`:
  - the store is a map, and a flush removes the names that start with the prefix;
  - `LIKE`'s `_` wildcard and the collation's case-insensitivity are not modelled;
  - the same deletion in `ct_docs_deactivate` is not modelled separately.
- One shared transient store: WordPress keeps one store for values of every type. The model has one `TransientCache<T>` per value type (TOC results, search results), so it does not capture a key read back as a value of another type.
- The SQL search query of `search_docs` (its `LIKE`, ordering and `LIMIT`): it is a function from the term and the limit to the posts it returns.
- The request side of `ajax_search`: `check_ajax_referer` is a boolean, and the term is given already sanitized. An absent `search` field is the empty term. JSON output is the `Response` value, and each `wp_send_json_*` ends the handler.
- `Search.LimitOf` and `Core.ShortcodeToc`: posted values and shortcode attributes go through PHP's loose typing. The model takes the posted limit as a whole number. It takes `shortcode_atts` as already merged with the defaults.
- `Plugin.IntVal`: reads only the leading digits. PHP's `intval` also skips leading whitespace, takes a sign, and (from PHP 7.1) reads a numeric string with a fraction or an exponent as a float and truncates it. So `intval("1e1")` is 10 in PHP but 1 here, and `columns="1e1"` clamps to 3 in PHP but 1 here; likewise `" 2"` and `"+2"`. Values the plugin stores are plain digits (`StoredReadTimeReadsBack`), so only the shortcode's `columns` attribute is affected.
- `Plugin.ReadMinutes` and `Core.CalculateReadTime`: `ceil` works on a float in PHP. The model uses exact whole-number division, which is the same for any word count a float represents exactly.
- `Plugin.RelatedAtMostLimit`: stated for `limit >= 1` only. For `posts_per_page` 0 or -1, WordPress picks its own number of posts, which this model does not know.
- `Core.ShortcodeToc`: the output buffer's HTML bytes are not built. The output is a `TocWidget` value holding the escaped heading, the clamped columns, the escaped links and the count, from which the template prints.
- `TocRender.TocMarkup`: its strings are written as concatenations, such as `"<" + "ul ..."`, so that the counting lemmas can take them apart. Their values are the literals of `render_toc`.
- `TocGenerator.Generated`: when there are no headings the PHP array has no `items` key; the model says `items` is `None`.
- `Plugin.GetReadTime` and `TocGenerator.GetToc`: `get_post` is a parameter. What it answers for id 0 (no current post) is left to it.
- `ct_docs_activate`, `ct_docs_deactivate`, the hooks and `render_columns`: registration, rewrite rules and screen output, with no logic of their own beyond WordPress calls.
- The Elementor widgets, the templates, the custom post type and taxonomy registration, the admin notices and the front-end JavaScript: presentation and framework glue.
- The object cache in front of the transient API, and concurrent requests.
