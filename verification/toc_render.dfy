/**
 * The table-of-contents markup (`CT_Docs_TOC_Generator::render_toc`,
 * includes/class-ct-docs-toc-generator.php).
 *
 * The renderer keeps a current nesting level, starting at 2. Before each
 * item it opens one sub-list per level the item is deeper and closes one
 * sub-list (and the item holding it) per level it is shallower; the item's
 * own `<li>` is left open. At the end every level from the current one down
 * to 2 is closed with `</li></ul>`.
 *
 * `TocHtml` is that output as a function of the items; `RenderToc` is the
 * loop that builds it. The lemmas count tags in the output: the `<ul>`s
 * balance, but only as many `</li>` are written as `</ul>`, so every item
 * that is followed by a sibling at the same level stays unclosed.
 */
module TocRender {
  import opened Php
  import opened Host
  import opened TocScanner
  import opened TagCount

  /** One entry of `$toc_items`. */
  datatype TocItem = TocItem(level: Level, text: string, id: string)

  /**
   * The fixed strings `render_toc` writes. The item format
   * `<li class="ct-docs-toc-item ct-docs-toc-level-%d"><a href="#%s">%s</a>`
   * appears split at its conversions and in front of its second tag.
   */
  datatype Markup = Markup(
    navOpen: string, headerOpen: string, title: string, headerClose: string, listOpen: string,
    sublistOpen: string, sublistClose: string,
    itemOpen: string, itemOpenEnd: string, linkOpen: string, linkMid: string, linkClose: string,
    listClose: string, navClose: string)

  /**
   * The strings of includes/class-ct-docs-toc-generator.php:124-128, 137,
   * 142, 148, 157 and 162. Each tag is written as its `<` or `</` followed
   * by the rest of it, which is where the counting lemmas below look.
   */
  const TocMarkup: Markup := Markup(
    navOpen := "<" + ("nav class=\"ct-docs-toc\"" + " aria-label=\"Table of Contents\">"),
    headerOpen := "<" + "div class=\"ct-docs-toc-header\">",
    title := ("<" + "span class=\"ct-docs-toc-title\">On this page") + ("</" + "span>"),
    headerClose := "</" + "div>",
    listOpen := "<" + "ul class=\"ct-docs-toc-list\">",
    sublistOpen := "<" + "ul class=\"ct-docs-toc-sublist\">",
    sublistClose := ("</" + "ul>") + ("</" + "li>"),
    itemOpen := "<" + ("li class=\"ct-docs-toc-item" + " ct-docs-toc-level-"),
    itemOpenEnd := "\">",
    linkOpen := "<" + "a href=\"#",
    linkMid := "\">",
    linkClose := "</" + "a>",
    listClose := ("</" + "li>") + ("</" + "ul>"),
    navClose := "</" + "nav>")

  /** Everything written before the first item. */
  function Header(m: Markup): string {
    m.navOpen + m.headerOpen + m.title + m.headerClose + m.listOpen
  }

  /** `n` copies of `t` (none when `n` is not positive). */
  function Repeat(t: string, n: int): (r: string)
    ensures n <= 0 ==> r == []
    decreases n
  {
    if n <= 0 then [] else Repeat(t, n - 1) + t
  }

  /**
   * The markup written for one item itself: its `<li>` opened (the level
   * written with `%d`) and its link, escaped, closed.
   */
  function ItemLink(m: Markup, fmt: Formatting, item: TocItem): string {
    (m.itemOpen + NatToString(item.level) + m.itemOpenEnd)
    + (m.linkOpen + fmt.escAttr(item.id) + m.linkMid + fmt.escHtml(item.text))
    + m.linkClose
  }

  /** The current level after the given items: 2 before the first, then the last item's. */
  function LevelAfter(items: seq<TocItem>): (l: int)
    ensures 2 <= l <= 5
  {
    if |items| == 0 then 2 else items[|items| - 1].level
  }

  /** What the loop writes for `item` when the current level is `prev`. */
  function Step(m: Markup, prev: int, fmt: Formatting, item: TocItem): string {
    Repeat(m.sublistOpen, item.level - prev) + Repeat(m.sublistClose, prev - item.level) + ItemLink(m, fmt, item)
  }

  /** What the loop writes for all the items, in order. */
  function Body(m: Markup, fmt: Formatting, items: seq<TocItem>): string {
    if |items| == 0 then []
    else
      var init := items[..|items| - 1];
      Body(m, fmt, init) + Step(m, LevelAfter(init), fmt, items[|items| - 1])
  }

  /** The whole output of `render_toc`: empty for no items. */
  function TocHtml(m: Markup, fmt: Formatting, items: seq<TocItem>): (r: string)
    requires m.navOpen != []
    ensures r == [] <==> |items| == 0
  {
    if |items| == 0 then []
    else Header(m) + Body(m, fmt, items) + Repeat(m.listClose, LevelAfter(items) - 1) + m.navClose
  }

  /** The body of some items is the body of all but the last, then the last one's step. */
  lemma BodyLast(m: Markup, fmt: Formatting, s: seq<TocItem>, init: seq<TocItem>)
    requires |s| > 0 && s[..|s| - 1] == init
    ensures Body(m, fmt, s) == Body(m, fmt, init) + Step(m, LevelAfter(init), fmt, s[|s| - 1])
  {
  }

  // Four facts of string algebra, stated over plain strings so that the
  // loop below need not take the markup apart to use them.

  lemma AppendNil(a: string)
    ensures a + [] == a
  {
  }

  lemma AppendAssoc(a: string, b: string, c: string)
    ensures (a + b) + c == a + (b + c)
  {
  }

  lemma AppendStep(h: string, opens: string, closes: string, link: string)
    ensures ((h + opens) + closes) + link == h + ((opens + closes) + link)
  {
  }

  lemma RepeatOnceMore(t: string, n: int)
    requires n >= 0
    ensures Repeat(t, n + 1) == Repeat(t, n) + t
  {
  }

  /**
   * The two inner loops leave the level at `mid`, the larger of the previous
   * level and the item's; what they wrote is what `Step` writes before the item.
   */
  lemma LoopsWriteStep(m: Markup, fmt: Formatting, prev: int, mid: int, item: TocItem)
    requires mid == if item.level > prev then item.level else prev
    ensures Step(m, prev, fmt, item)
         == (Repeat(m.sublistOpen, mid - prev) + Repeat(m.sublistClose, mid - item.level)) + ItemLink(m, fmt, item)
  {
  }

  /**
   * The first nesting loop of `render_toc`: while the item is deeper than
   * the current level, open a sub-list and go one level down.
   */
  method OpenSublists(m: Markup, html0: string, current0: int, level: int) returns (html: string, current: int)
    ensures current == if level > current0 then level else current0
    ensures html == html0 + Repeat(m.sublistOpen, level - current0)
  {
    html, current := html0, current0;
    AppendNil(html);
    while level > current
      invariant current0 <= current && (current == current0 || current <= level)
      invariant html == html0 + Repeat(m.sublistOpen, current - current0)
    {
      AppendAssoc(html0, Repeat(m.sublistOpen, current - current0), m.sublistOpen);
      RepeatOnceMore(m.sublistOpen, current - current0);
      html := html + m.sublistOpen;
      current := current + 1;
    }
  }

  /**
   * The second nesting loop: while the item is shallower than the current
   * level, close the sub-list and the item holding it, and go one level up.
   */
  method CloseSublists(m: Markup, html0: string, current0: int, level: int) returns (html: string, current: int)
    ensures current == if level < current0 then level else current0
    ensures html == html0 + Repeat(m.sublistClose, current0 - level)
  {
    html, current := html0, current0;
    AppendNil(html);
    while level < current
      invariant level <= current <= current0 || current == current0
      invariant html == html0 + Repeat(m.sublistClose, current0 - current)
    {
      AppendAssoc(html0, Repeat(m.sublistClose, current0 - current), m.sublistClose);
      RepeatOnceMore(m.sublistClose, current0 - current);
      html := html + m.sublistClose;
      current := current - 1;
    }
  }

  /** The final loop: close every level still open, down to level 2. */
  method CloseLists(m: Markup, html0: string, current0: int) returns (html: string)
    requires current0 >= 1
    ensures html == html0 + Repeat(m.listClose, current0 - 1)
  {
    html := html0;
    var current := current0;
    AppendNil(html);
    while current >= 2
      invariant 1 <= current <= current0
      invariant html == html0 + Repeat(m.listClose, current0 - current)
    {
      AppendAssoc(html0, Repeat(m.listClose, current0 - current), m.listClose);
      RepeatOnceMore(m.listClose, current0 - current);
      html := html + m.listClose;
      current := current - 1;
    }
  }

  /**
   * One pass of `render_toc`'s item loop: the two nesting loops, then the
   * item's `<li>` and link.
   */
  method WriteItem(m: Markup, fmt: Formatting, html0: string, current0: int, item: TocItem) returns (html: string, current: int)
    ensures current == item.level
    ensures html == html0 + Step(m, current0, fmt, item)
  {
    var level: int := item.level;
    html, current := OpenSublists(m, html0, current0, level);
    ghost var opens := Repeat(m.sublistOpen, level - current0);
    ghost var mid: int := current;
    html, current := CloseSublists(m, html, current, level);
    ghost var closes := Repeat(m.sublistClose, mid - level);
    var link := ItemLink(m, fmt, item);
    html := html + link;
    AppendStep(html0, opens, closes, link);
    LoopsWriteStep(m, fmt, current0, mid, item);
  }

  /** The item loop of `render_toc`, from level 2: each item's step appended in turn. */
  method WriteItems(m: Markup, fmt: Formatting, html0: string, items: seq<TocItem>) returns (html: string, current: int)
    ensures html == html0 + Body(m, fmt, items)
    ensures current == LevelAfter(items)
  {
    html, current := html0, 2;
    var i := 0;
    ghost var done: seq<TocItem> := [];
    AppendNil(html);
    while i < |items|
      invariant 0 <= i <= |items| && done == items[..i]
      invariant current == LevelAfter(done)
      invariant html == html0 + Body(m, fmt, done)
    {
      html, current := WriteItem(m, fmt, html, current, items[i]);
      ghost var next := items[..i + 1];
      assert next[..|next| - 1] == done && next[|next| - 1] == items[i];
      BodyLast(m, fmt, next, done);
      AppendAssoc(html0, Body(m, fmt, done), Step(m, LevelAfter(done), fmt, items[i]));
      done := next;
      i := i + 1;
    }
    assert done == items;
  }

  /** `render_toc( $items )`, writing the strings of `m`. */
  method RenderToc(m: Markup, fmt: Formatting, items: seq<TocItem>) returns (html: string)
    requires m.navOpen != []
    ensures html == TocHtml(m, fmt, items)
  {
    if |items| == 0 {
      return "";
    }
    html := m.navOpen;
    html := html + m.headerOpen;
    html := html + m.title;
    html := html + m.headerClose;
    html := html + m.listOpen;
    assert html == Header(m);
    var current;
    html, current := WriteItems(m, fmt, html, items);
    html := CloseLists(m, html, current);
    html := html + m.navClose;
  }

  // ---------------------------------------------------------------------
  // Counting tags in the output

  /** How often `<ul`, `</ul>`, `<li` and `</li>` occur in a piece of output. */
  datatype Tally = Tally(ulOpen: nat, ulClose: nat, liOpen: nat, liClose: nat)

  predicate HasTally(s: string, t: Tally) {
    && CountOf(s, "<ul") == t.ulOpen
    && CountOf(s, "</ul>") == t.ulClose
    && CountOf(s, "<li") == t.liOpen
    && CountOf(s, "</li>") == t.liClose
  }

  lemma PatternsAreTags()
    ensures Pattern("<ul") && Pattern("</ul>") && Pattern("<li") && Pattern("</li>")
  {
  }

  /** Tallies add up over a seam in front of a tag. */
  lemma TallyOfConcat(a: string, b: string, x: Tally, y: Tally)
    requires StartsTag(b) && HasTally(a, x) && HasTally(b, y)
    ensures HasTally(a + b, Tally(x.ulOpen + y.ulOpen, x.ulClose + y.ulClose,
                                  x.liOpen + y.liOpen, x.liClose + y.liClose))
  {
    PatternsAreTags();
    CountOfConcat(a, b, "<ul");
    CountOfConcat(a, b, "</ul>");
    CountOfConcat(a, b, "<li");
    CountOfConcat(a, b, "</li>");
  }

  /** A tag piece's tally is decided by how it starts. */
  lemma TallyOfTagPiece(t: string)
    requires TagPiece(t)
    ensures HasTally(t, Tally(if "<ul" <= t then 1 else 0, if "</ul>" <= t then 1 else 0,
                              if "<li" <= t then 1 else 0, if "</li>" <= t then 1 else 0))
  {
    PatternsAreTags();
    CountOfTagPiece(t, "<ul");
    CountOfTagPiece(t, "</ul>");
    CountOfTagPiece(t, "<li");
    CountOfTagPiece(t, "</li>");
  }

  /** Text without `<` after a tag changes none of the counts. */
  lemma TallyOfHead(h: string, x: string, t: Tally)
    requires TagPiece(h) && NoLt(x) && HasTally(h, t)
    requires Decides(h, "<ul") && Decides(h, "</ul>") && Decides(h, "<li") && Decides(h, "</li>")
    ensures TagPiece(h + x) && HasTally(h + x, t)
  {
    PatternsAreTags();
    TagPieceConcat(h, x);
    CountOfHead(h, x, "<ul");
    CountOfHead(h, x, "</ul>");
    CountOfHead(h, x, "<li");
    CountOfHead(h, x, "</li>");
  }

  /** Text without `<` holds none of the four tags. */
  lemma TallyOfNoLt(s: string)
    requires NoLt(s)
    ensures HasTally(s, Tally(0, 0, 0, 0))
  {
    PatternsAreTags();
    CountOfNoLt(s, "<ul");
    CountOfNoLt(s, "</ul>");
    CountOfNoLt(s, "<li");
    CountOfNoLt(s, "</li>");
  }

  lemma StartsTagConcat(a: string, b: string)
    requires StartsTag(a) && StartsTag(b)
    ensures StartsTag(a + b)
  {
  }

  /** Once a head decides a pattern, any longer head does. */
  lemma DecidesExtend(h: string, x: string, p: string)
    requires Decides(h, p)
    ensures Decides(h + x, p)
  {
  }

  // The shapes of the fixed strings that the counting relies on.

  /** A fixed string holding none of the four tags. */
  predicate Plain(s: string) {
    StartsTag(s) && HasTally(s, Tally(0, 0, 0, 0))
  }

  /** A fixed string that opens one list. */
  predicate Opener(s: string) {
    StartsTag(s) && HasTally(s, Tally(1, 0, 0, 0))
  }

  /** A fixed string that closes one list and one item. */
  predicate Closer(s: string) {
    StartsTag(s) && HasTally(s, Tally(0, 1, 0, 1))
  }

  /** A single tag, open at its end, whose start already decides all four tags. */
  predicate Head(s: string, t: Tally) {
    && TagPiece(s) && HasTally(s, t)
    && Decides(s, "<ul") && Decides(s, "</ul>") && Decides(s, "<li") && Decides(s, "</li>")
  }

  /**
   * The markup strings have the shape `render_toc`'s own strings have: the
   * list openings open one list, the list closings close one list and one
   * item, the `<li` and `<a` tags stay open for the level and the link, and
   * nothing else mentions a list or an item.
   */
  predicate Counted(m: Markup) {
    && Plain(m.navOpen) && Plain(m.headerOpen) && Plain(m.title) && Plain(m.headerClose)
    && Opener(m.listOpen) && Opener(m.sublistOpen)
    && Closer(m.sublistClose) && Closer(m.listClose)
    && Head(m.itemOpen, Tally(0, 0, 1, 0)) && NoLt(m.itemOpenEnd)
    && Head(m.linkOpen, Tally(0, 0, 0, 0)) && NoLt(m.linkMid)
    && Plain(m.linkClose) && Plain(m.navClose)
  }

  /** Text without `<` after an open tag leaves it a head with the same tally. */
  lemma HeadExtend(h: string, x: string, t: Tally)
    requires Head(h, t) && NoLt(x)
    ensures Head(h + x, t)
  {
    TallyOfHead(h, x, t);
    DecidesExtend(h, x, "<ul");
    DecidesExtend(h, x, "</ul>");
    DecidesExtend(h, x, "<li");
    DecidesExtend(h, x, "</li>");
  }

  function Max0(n: int): nat {
    if n <= 0 then 0 else n
  }

  /** Repeating a list opening opens that many lists. */
  lemma {:induction false} RepeatOpeners(t: string, n: int)
    requires Opener(t)
    ensures StartsTag(Repeat(t, n)) && HasTally(Repeat(t, n), Tally(Max0(n), 0, 0, 0))
    decreases n
  {
    if n <= 0 {
      TallyOfNoLt([]);
    } else {
      RepeatOpeners(t, n - 1);
      StartsTagConcat(Repeat(t, n - 1), t);
      TallyOfConcat(Repeat(t, n - 1), t, Tally(Max0(n - 1), 0, 0, 0), Tally(1, 0, 0, 0));
    }
  }

  /** Repeating a list closing closes that many lists and items. */
  lemma {:induction false} RepeatClosers(t: string, n: int)
    requires Closer(t)
    ensures StartsTag(Repeat(t, n)) && HasTally(Repeat(t, n), Tally(0, Max0(n), 0, Max0(n)))
    decreases n
  {
    if n <= 0 {
      TallyOfNoLt([]);
    } else {
      RepeatClosers(t, n - 1);
      StartsTagConcat(Repeat(t, n - 1), t);
      TallyOfConcat(Repeat(t, n - 1), t, Tally(0, Max0(n - 1), 0, Max0(n - 1)), Tally(0, 1, 0, 1));
    }
  }

  /** One item's own markup opens exactly one `<li` and nothing else. */
  lemma ItemLinkTally(m: Markup, fmt: Formatting, item: TocItem)
    requires Counted(m) && EscapesLt(fmt)
    ensures StartsTag(ItemLink(m, fmt, item)) && HasTally(ItemLink(m, fmt, item), Tally(0, 0, 1, 0))
  {
    var digits := NatToString(item.level);
    NoLtOfDigits(digits);
    HeadExtend(m.itemOpen, digits, Tally(0, 0, 1, 0));
    HeadExtend(m.itemOpen + digits, m.itemOpenEnd, Tally(0, 0, 1, 0));
    var a := m.itemOpen + digits + m.itemOpenEnd;
    var id, text := fmt.escAttr(item.id), fmt.escHtml(item.text);
    assert NoLt(id) && NoLt(text);
    HeadExtend(m.linkOpen, id, Tally(0, 0, 0, 0));
    HeadExtend(m.linkOpen + id, m.linkMid, Tally(0, 0, 0, 0));
    HeadExtend(m.linkOpen + id + m.linkMid, text, Tally(0, 0, 0, 0));
    var b := m.linkOpen + id + m.linkMid + text;
    TallyOfConcat(a, b, Tally(0, 0, 1, 0), Tally(0, 0, 0, 0));
    TallyOfConcat(a + b, m.linkClose, Tally(0, 0, 1, 0), Tally(0, 0, 0, 0));
  }

  /** What one step of the loop opens and closes, by the level change. */
  lemma StepTally(m: Markup, prev: int, fmt: Formatting, item: TocItem)
    requires Counted(m) && EscapesLt(fmt)
    ensures StartsTag(Step(m, prev, fmt, item))
    ensures HasTally(Step(m, prev, fmt, item),
                     Tally(Max0(item.level - prev), Max0(prev - item.level), 1, Max0(prev - item.level)))
  {
    var opens := Repeat(m.sublistOpen, item.level - prev);
    var closes := Repeat(m.sublistClose, prev - item.level);
    RepeatOpeners(m.sublistOpen, item.level - prev);
    RepeatClosers(m.sublistClose, prev - item.level);
    ItemLinkTally(m, fmt, item);
    TallyOfConcat(opens, closes, Tally(Max0(item.level - prev), 0, 0, 0), Tally(0, Max0(prev - item.level), 0, Max0(prev - item.level)));
    StartsTagConcat(opens, closes);
    TallyOfConcat(opens + closes, ItemLink(m, fmt, item),
                  Tally(Max0(item.level - prev), Max0(prev - item.level), 0, Max0(prev - item.level)), Tally(0, 0, 1, 0));
    StartsTagConcat(opens + closes, ItemLink(m, fmt, item));
  }

  /** The levels the items climb, in total, starting from level 2. */
  function Rises(items: seq<TocItem>): nat {
    if |items| == 0 then 0
    else
      var init := items[..|items| - 1];
      Rises(init) + Max0(items[|items| - 1].level - LevelAfter(init))
  }

  /** The levels the items descend, in total, starting from level 2. */
  function Falls(items: seq<TocItem>): nat {
    if |items| == 0 then 0
    else
      var init := items[..|items| - 1];
      Falls(init) + Max0(LevelAfter(init) - items[|items| - 1].level)
  }

  /** Climbing less descending is where the items end up, counted from level 2. */
  lemma {:induction false} RisesMinusFalls(items: seq<TocItem>)
    ensures Rises(items) - Falls(items) == LevelAfter(items) - 2
  {
    if |items| > 0 {
      RisesMinusFalls(items[..|items| - 1]);
    }
  }

  /** The loop opens a sub-list per level climbed, closes one per level descended, and opens one `<li` per item. */
  lemma {:induction false} BodyTally(m: Markup, fmt: Formatting, items: seq<TocItem>)
    requires Counted(m) && EscapesLt(fmt)
    ensures StartsTag(Body(m, fmt, items))
    ensures HasTally(Body(m, fmt, items), Tally(Rises(items), Falls(items), |items|, Falls(items)))
  {
    if |items| == 0 {
      TallyOfNoLt([]);
    } else {
      var init := items[..|items| - 1];
      var last := items[|items| - 1];
      BodyTally(m, fmt, init);
      StepTally(m, LevelAfter(init), fmt, last);
      var d, u := Max0(last.level - LevelAfter(init)), Max0(LevelAfter(init) - last.level);
      TallyOfConcat(Body(m, fmt, init), Step(m, LevelAfter(init), fmt, last),
                    Tally(Rises(init), Falls(init), |init|, Falls(init)), Tally(d, u, 1, u));
      StartsTagConcat(Body(m, fmt, init), Step(m, LevelAfter(init), fmt, last));
    }
  }

  /** Everything before the first item opens the outer list and nothing else. */
  lemma HeaderTally(m: Markup)
    requires Counted(m)
    ensures StartsTag(Header(m)) && HasTally(Header(m), Tally(1, 0, 0, 0))
  {
    var z := Tally(0, 0, 0, 0);
    TallyOfConcat(m.navOpen, m.headerOpen, z, z);
    TallyOfConcat(m.navOpen + m.headerOpen, m.title, z, z);
    TallyOfConcat(m.navOpen + m.headerOpen + m.title, m.headerClose, z, z);
    TallyOfConcat(m.navOpen + m.headerOpen + m.title + m.headerClose, m.listOpen, z, Tally(1, 0, 0, 0));
  }

  /** Tallies of the four parts of a table of contents add up. */
  lemma TallyOfParts(h: string, b: string, c: string, n: string, up: nat, down: nat, k: nat, l: nat)
    requires HasTally(h, Tally(1, 0, 0, 0))
    requires StartsTag(b) && HasTally(b, Tally(up, down, k, down))
    requires StartsTag(c) && HasTally(c, Tally(0, l, 0, l))
    requires StartsTag(n) && HasTally(n, Tally(0, 0, 0, 0))
    ensures HasTally(h + b + c + n, Tally(1 + up, down + l, k, down + l))
  {
    TallyOfConcat(h, b, Tally(1, 0, 0, 0), Tally(up, down, k, down));
    StartsTagConcat(b, c);
    TallyOfConcat(h + b, c, Tally(1 + up, down, k, down), Tally(0, l, 0, l));
    TallyOfConcat(h + b + c, n, Tally(1 + up, down + l, k, down + l), Tally(0, 0, 0, 0));
  }

  /** The tally of the whole table of contents, from the header, the items and the closing loop. */
  lemma TocTally(m: Markup, fmt: Formatting, items: seq<TocItem>)
    requires Counted(m) && m.navOpen != [] && EscapesLt(fmt) && |items| > 0
    ensures HasTally(TocHtml(m, fmt, items),
                     Tally(1 + Rises(items), Falls(items) + LevelAfter(items) - 1,
                           |items|, Falls(items) + LevelAfter(items) - 1))
  {
    var l := LevelAfter(items) - 1;
    HeaderTally(m);
    BodyTally(m, fmt, items);
    RepeatClosers(m.listClose, l);
    TocTallyOfParts(m, fmt, items, l);
  }

  /** The tally of a table of contents from the tallies of its four parts. */
  lemma TocTallyOfParts(m: Markup, fmt: Formatting, items: seq<TocItem>, l: nat)
    requires m.navOpen != [] && |items| > 0 && l == LevelAfter(items) - 1
    requires HasTally(Header(m), Tally(1, 0, 0, 0))
    requires StartsTag(Body(m, fmt, items))
    requires HasTally(Body(m, fmt, items), Tally(Rises(items), Falls(items), |items|, Falls(items)))
    requires StartsTag(Repeat(m.listClose, l)) && HasTally(Repeat(m.listClose, l), Tally(0, l, 0, l))
    requires Plain(m.navClose)
    ensures HasTally(TocHtml(m, fmt, items),
                     Tally(1 + Rises(items), Falls(items) + LevelAfter(items) - 1,
                           |items|, Falls(items) + LevelAfter(items) - 1))
  {
    TallyOfParts(Header(m), Body(m, fmt, items), Repeat(m.listClose, l), m.navClose,
                 Rises(items), Falls(items), |items|, l);
  }

  /**
   * The counts of list and item tags in the whole table of contents: every
   * `<ul` is closed, every item opens a `<li`, but only as many `</li>` are
   * written as `</ul>`.
   */
  lemma TocTagCounts(m: Markup, fmt: Formatting, items: seq<TocItem>)
    requires Counted(m) && m.navOpen != [] && EscapesLt(fmt) && |items| > 0
    ensures CountOf(TocHtml(m, fmt, items), "<ul") == 1 + Rises(items)
    ensures CountOf(TocHtml(m, fmt, items), "</ul>") == CountOf(TocHtml(m, fmt, items), "<ul")
    ensures CountOf(TocHtml(m, fmt, items), "</li>") == CountOf(TocHtml(m, fmt, items), "<ul")
    ensures CountOf(TocHtml(m, fmt, items), "<li") == |items|
  {
    TocTally(m, fmt, items);
    RisesMinusFalls(items);
  }

  /** Items that all sit at level 2 climb nowhere. */
  lemma {:induction false} FlatItemsDoNotRise(items: seq<TocItem>)
    requires forall k :: 0 <= k < |items| ==> items[k].level == 2
    ensures Rises(items) == 0
  {
    if |items| > 0 {
      FlatItemsDoNotRise(items[..|items| - 1]);
    }
  }

  /**
   * Siblings are never closed: a table of contents of `n` items all at
   * level 2 opens `n` items but writes a single `</li>`, at the very end.
   */
  lemma FlatTocClosesOneItem(m: Markup, fmt: Formatting, items: seq<TocItem>)
    requires Counted(m) && m.navOpen != [] && EscapesLt(fmt) && |items| > 0
    requires forall k :: 0 <= k < |items| ==> items[k].level == 2
    ensures CountOf(TocHtml(m, fmt, items), "<li") == |items|
    ensures CountOf(TocHtml(m, fmt, items), "</li>") == 1
  {
    TocTagCounts(m, fmt, items);
    FlatItemsDoNotRise(items);
  }

  // The plugin's own strings have the shape the counting needs.

  /** An opening tag whose name starts with neither `u` nor `l` is none of the four. */
  lemma OtherTag(r: string)
    requires NoLt(r) && |r| >= 4 && r[0] != 'u' && r[0] != 'l' && r[0] != '/'
    ensures Head("<" + r, Tally(0, 0, 0, 0)) && Plain("<" + r)
  {
    assert ("<" + r)[1..] == r;
    assert ("<" + r)[1] == r[0];
    TallyOfTagPiece("<" + r);
  }

  /** An opening tag named `ul...` opens one list. */
  lemma ListTag(r: string)
    requires NoLt(r) && |r| >= 2 && r[0] == 'u' && r[1] == 'l'
    ensures Opener("<" + r)
  {
    assert ("<" + r)[1..] == r;
    assert ("<" + r)[1] == r[0] && ("<" + r)[2] == r[1];
    TallyOfTagPiece("<" + r);
  }

  /** An opening tag named `li...` opens one item, whatever follows it. */
  lemma ItemTag(r: string)
    requires NoLt(r) && |r| >= 4 && r[0] == 'l' && r[1] == 'i'
    ensures Head("<" + r, Tally(0, 0, 1, 0))
  {
    assert ("<" + r)[1..] == r;
    assert ("<" + r)[1] == r[0] && ("<" + r)[2] == r[1];
    TallyOfTagPiece("<" + r);
  }

  /** A closing tag whose name starts with neither `u` nor `l` is none of the four. */
  lemma OtherEndTag(r: string)
    requires NoLt(r) && |r| >= 1 && r[0] != 'u' && r[0] != 'l'
    ensures Plain("</" + r)
  {
    assert ("</" + r)[1..] == "/" + r;
    assert ("</" + r)[1] == '/' && ("</" + r)[2] == r[0];
    TallyOfTagPiece("</" + r);
  }

  lemma EndTagUl()
    ensures StartsTag("</" + "ul>") && HasTally("</" + "ul>", Tally(0, 1, 0, 0))
  {
    assert "</" + "ul>" == "</ul>";
    TallyOfTagPiece("</ul>");
    assert "</ul>"[2] == 'u';
  }

  lemma EndTagLi()
    ensures StartsTag("</" + "li>") && HasTally("</" + "li>", Tally(0, 0, 0, 1))
  {
    assert "</" + "li>" == "</li>";
    TallyOfTagPiece("</li>");
    assert "</li>"[2] == 'l';
  }

  lemma ListStringsCounted()
    ensures Opener(TocMarkup.listOpen) && Opener(TocMarkup.sublistOpen)
  {
    ListTag("ul class=\"ct-docs-toc-list\">");
    ListTag("ul class=\"ct-docs-toc-sublist\">");
  }

  lemma CloseStringsCounted()
    ensures Closer(TocMarkup.sublistClose) && Closer(TocMarkup.listClose)
  {
    EndTagUl();
    EndTagLi();
    TallyOfConcat("</" + "ul>", "</" + "li>", Tally(0, 1, 0, 0), Tally(0, 0, 0, 1));
    TallyOfConcat("</" + "li>", "</" + "ul>", Tally(0, 0, 0, 1), Tally(0, 1, 0, 0));
  }

  lemma NavOpenCounted()
    ensures Plain(TocMarkup.navOpen)
  {
    NoLtConcat("nav class=\"ct-docs-toc\"", " aria-label=\"Table of Contents\">");
    OtherTag("nav class=\"ct-docs-toc\"" + " aria-label=\"Table of Contents\">");
  }

  lemma HeaderOpenCounted()
    ensures Plain(TocMarkup.headerOpen)
  {
    OtherTag("div class=\"ct-docs-toc-header\">");
  }

  lemma TitleCounted()
    ensures Plain(TocMarkup.title)
  {
    var z := Tally(0, 0, 0, 0);
    OtherTag("span class=\"ct-docs-toc-title\">On this page");
    OtherEndTag("span>");
    TallyOfConcat("<" + "span class=\"ct-docs-toc-title\">On this page", "</" + "span>", z, z);
  }

  lemma ItemOpenCounted()
    ensures Head(TocMarkup.itemOpen, Tally(0, 0, 1, 0)) && NoLt(TocMarkup.itemOpenEnd)
  {
    NoLtConcat("li class=\"ct-docs-toc-item", " ct-docs-toc-level-");
    ItemTag("li class=\"ct-docs-toc-item" + " ct-docs-toc-level-");
  }

  lemma LinkStringsCounted()
    ensures Head(TocMarkup.linkOpen, Tally(0, 0, 0, 0)) && NoLt(TocMarkup.linkMid)
    ensures Plain(TocMarkup.linkClose)
  {
    OtherTag("a href=\"#");
    OtherEndTag("a>");
  }

  lemma EndStringsCounted()
    ensures Plain(TocMarkup.headerClose) && Plain(TocMarkup.navClose)
  {
    OtherEndTag("div>");
    OtherEndTag("nav>");
  }

  /** `render_toc`'s own strings have the shape the counting lemmas ask for. */
  lemma TocMarkupCounted()
    ensures Counted(TocMarkup) && TocMarkup.navOpen != []
  {
    NavOpenCounted();
    HeaderOpenCounted();
    TitleCounted();
    ListStringsCounted();
    CloseStringsCounted();
    ItemOpenCounted();
    LinkStringsCounted();
    EndStringsCounted();
  }

  /**
   * The table of contents `render_toc` writes: its lists balance, it opens
   * one `<li` per item, and it closes only as many items as lists.
   */
  lemma RenderedTocTagCounts(fmt: Formatting, items: seq<TocItem>)
    requires EscapesLt(fmt) && |items| > 0
    ensures CountOf(TocHtml(TocMarkup, fmt, items), "</ul>") == CountOf(TocHtml(TocMarkup, fmt, items), "<ul")
    ensures CountOf(TocHtml(TocMarkup, fmt, items), "</li>") == CountOf(TocHtml(TocMarkup, fmt, items), "<ul")
    ensures CountOf(TocHtml(TocMarkup, fmt, items), "<li") == |items|
  {
    TocMarkupCounted();
    TocTagCounts(TocMarkup, fmt, items);
  }
}
