/**
 * What the rewrite loop of `generate` (includes/class-ct-docs-toc-generator.php)
 * does to a post's content. Each heading's whole match is handed to
 * `str_replace`, which replaces every copy of it at once: a heading is
 * rewritten from its level, its id and its inner markup only, so anything
 * else its opening tag held is gone, and a heading repeated word for word
 * carries the first copy's id everywhere.
 */
module TocRewrite {
  import opened Php
  import opened Host
  import opened TocScanner
  import opened TocRender
  import opened TocGenerator

  /** The items of a single heading: its id is its slug, nothing being used before it. */
  lemma OneItem(fmt: Formatting, m: Match)
    ensures ItemsOf(fmt, [m]) == [TocItem(m.level, fmt.stripAllTags(m.inner), fmt.sanitizeTitle(fmt.stripAllTags(m.inner)))]
  {
    FreshIdOfSlug(fmt.sanitizeTitle(fmt.stripAllTags(m.inner)), []);
    assert [m][..0] == [];
  }

  /** The content after a single heading: one `str_replace` of its match. */
  lemma OneRewrite(fmt: Formatting, content: string, m: Match, item: TocItem)
    ensures Rewritten(fmt, content, [m], [item])
         == ReplaceAll(content, m.full, HeadingMarkup(m.level, fmt.escAttr(item.id), m.inner))
  {
    assert [m][..0] == [] && [item][..0] == [];
  }

  /** A heading's match sits in the content between what comes before and after it. */
  lemma AroundHeading(content: string, i: nat)
    requires i < |Headings(content)|
    ensures var m := Headings(content)[i];
            && m.full != []
            && content == content[..m.start] + m.full + content[m.end..]
  {
    var m := Headings(content)[i];
    HeadingsAreWellFormed(content, i);
    assert OpensAt(m.full, 0);
  }

  /**
   * A post with one heading, whose markup occurs nowhere else, gets exactly
   * that heading replaced by `<h`, the level, the id and the inner markup.
   * Everything around it is kept.
   */
  lemma RewritesOnlyHeading(fmt: Formatting, content: string)
    requires |Headings(content)| == 1
    requires forall i :: OccursAt(content, Headings(content)[0].full, i) ==> i == Headings(content)[0].start
    ensures var m := Headings(content)[0];
            var id := fmt.sanitizeTitle(fmt.stripAllTags(m.inner));
            && Generated(fmt, content).items == Some([TocItem(m.level, fmt.stripAllTags(m.inner), id)])
            && Generated(fmt, content).content
               == content[..m.start] + HeadingMarkup(m.level, fmt.escAttr(id), m.inner) + content[m.end..]
  {
    var ms := Headings(content);
    var m := ms[0];
    assert ms == [m];
    var item := TocItem(m.level, fmt.stripAllTags(m.inner), fmt.sanitizeTitle(fmt.stripAllTags(m.inner)));
    OneItem(fmt, m);
    OneRewrite(fmt, content, m, item);
    AroundHeading(content, 0);
    ReplaceAllOnce(content[..m.start], m.full, content[m.end..], HeadingMarkup(m.level, fmt.escAttr(item.id), m.inner));
  }

  // ---------------------------------------------------------------------
  // Headings as authors write them

  /** `<hD attrs>text</hD>`: a heading of level digit `d` whose opening tag carries `attrs`. */
  function Tag(d: char, attrs: string, text: string): string {
    "<h" + [d] + attrs + ">" + text + "</h" + [d] + ">"
  }

  /** Where each part of a `Tag` lies. */
  lemma TagChars(d: char, attrs: string, text: string)
    ensures var t, a := Tag(d, attrs, text), |attrs|;
            && |t| == 9 + a + |text|
            && t[0] == '<' && t[1] == 'h' && t[2] == d
            && (forall k :: 0 <= k < a ==> t[3 + k] == attrs[k])
            && t[3 + a] == '>'
            && (forall k :: 0 <= k < |text| ==> t[4 + a + k] == text[k])
            && t[4 + a..4 + a + |text|] == text
            && t[4 + a + |text|..] == "</h" + [d] + ">"
  {
    var t := Tag(d, attrs, text);
    assert t == ("<h" + [d]) + attrs + (">" + text) + ("</h" + [d] + ">");
  }

  lemma CharsAt(s: string, p: nat, t: string)
    requires p + |t| <= |s| && s[p..p + |t|] == t
    ensures forall k :: 0 <= k < |t| ==> s[p + k] == t[k]
  {
    forall k | 0 <= k < |t| ensures s[p + k] == t[k] {
      assert s[p..p + |t|][k] == s[p + k];
    }
  }

  /** A piece of a string found at `p` in `s` gives the pieces of `s` there. */
  lemma SubSlice(s: string, p: nat, t: string, i: nat, j: nat)
    requires p + |t| <= |s| && s[p..p + |t|] == t && i <= j <= |t|
    ensures s[p + i..p + j] == t[i..j]
  {
    forall k | 0 <= k < j - i ensures s[p + i..p + j][k] == t[i..j][k] {
      assert s[p + i + k] == s[p..p + |t|][i + k];
    }
  }

  /** Where the pieces of a `Tag` at `p` lie in `s`. */
  lemma TagSlices(s: string, p: nat, d: char, attrs: string, text: string)
    requires p + |Tag(d, attrs, text)| <= |s| && s[p..p + |Tag(d, attrs, text)|] == Tag(d, attrs, text)
    ensures var a, n := |attrs|, |text|;
            && |Tag(d, attrs, text)| == 9 + a + n
            && s[p..p + 3] == "<h" + [d]
            && s[p + 3..p + 3 + a] == attrs
            && s[p + 3 + a] == '>'
            && s[p + 4 + a..p + 4 + a + n] == text
            && s[p + 4 + a + n..p + 9 + a + n] == "</h" + [d] + ">"
  {
    var t, a, n := Tag(d, attrs, text), |attrs|, |text|;
    TagChars(d, attrs, text);
    assert t[0..3] == "<h" + [d];
    SubSlice(s, p, t, 0, 3);
    SubSlice(s, p, t, 3, 3 + a);
    assert t[3..3 + a] == attrs;
    SubSlice(s, p, t, 4 + a, 4 + a + n);
    SubSlice(s, p, t, 4 + a + n, 9 + a + n);
    assert t[4 + a + n..9 + a + n] == t[4 + a + n..];
    assert s[p + 3 + a] == s[p..p + |t|][3 + a];
  }

  lemma TagOpens(s: string, p: nat, d: char)
    requires IsLevelDigit(d) && p + 3 <= |s| && s[p..p + 3] == "<h" + [d]
    ensures OpensAt(s, p) && s[p + 2] == d
  {
    CharsAt(s, p, "<h" + [d]);
  }

  lemma TagCloses(s: string, k: nat, d: char)
    requires IsLevelDigit(d) && k + 5 <= |s| && s[k..k + 5] == "</h" + [d] + ">"
    ensures ClosesAt(s, k)
  {
    CharsAt(s, k, "</h" + [d] + ">");
  }

  lemma PlainText(s: string, a: nat, text: string)
    requires NoLt(text) && '\n' !in text && a + |text| <= |s| && s[a..a + |text|] == text
    ensures NewlineFree(s, a, a + |text|)
    ensures forall j :: a <= j < a + |text| ==> !ClosesAt(s, j)
  {
    CharsAt(s, a, text);
    forall j | a <= j < a + |text| ensures s[j] != '\n' && s[j] != '<' {
      assert s[j] == text[j - a];
    }
  }

  lemma NoGt(s: string, a: nat, attrs: string)
    requires '>' !in attrs && a + |attrs| <= |s| && s[a..a + |attrs|] == attrs
    ensures forall j :: a <= j < a + |attrs| ==> s[j] != '>'
  {
    CharsAt(s, a, attrs);
    forall j | a <= j < a + |attrs| ensures s[j] != '>' {
      assert s[j] == attrs[j - a];
    }
  }

  /** The declarative heading a `Tag` makes at `p`. */
  lemma TagIsHeading(s: string, p: nat, d: char, attrs: string, text: string)
    requires IsLevelDigit(d) && '>' !in attrs && NoLt(text) && '\n' !in text
    requires p + |Tag(d, attrs, text)| <= |s| && s[p..p + |Tag(d, attrs, text)|] == Tag(d, attrs, text)
    ensures IsHeadingAt(s, p, p + 3 + |attrs|, p + 4 + |attrs| + |text|)
    ensures |Tag(d, attrs, text)| == 9 + |attrs| + |text| && s[p + 2] == d
    ensures s[p + 4 + |attrs|..p + 4 + |attrs| + |text|] == text
  {
    var a, n := |attrs|, |text|;
    TagSlices(s, p, d, attrs, text);
    TagOpens(s, p, d);
    TagCloses(s, p + 4 + a + n, d);
    NoGt(s, p + 3, attrs);
    PlainText(s, p + 4 + a, text);
  }

  /**
   * A `Tag` at `p` in `s`, whose attributes hold no `>` and whose text holds
   * no `<` and no newline, is matched there, at the level of its digit.
   */
  lemma TagMatches(s: string, p: nat, d: char, attrs: string, text: string)
    requires IsLevelDigit(d) && '>' !in attrs && NoLt(text) && '\n' !in text
    requires p + |Tag(d, attrs, text)| <= |s| && s[p..p + |Tag(d, attrs, text)|] == Tag(d, attrs, text)
    ensures MatchAt(s, p) == Some(Match(p, p + |Tag(d, attrs, text)|, LevelOf(d), Tag(d, attrs, text), text))
  {
    var t := Tag(d, attrs, text);
    var gt, close := p + 3 + |attrs|, p + 4 + |attrs| + |text|;
    TagIsHeading(s, p, d, attrs, text);
    HeadingMatch(s, p, gt, close);
  }

  /** The match at a declarative heading, spelled out. */
  lemma HeadingMatch(s: string, p: nat, gt: int, close: int)
    requires IsHeadingAt(s, p, gt, close)
    ensures MatchAt(s, p) == Some(Match(p, close + 5, LevelOf(s[p + 2]), s[p..close + 5], s[gt + 1..close]))
  {
    HeadingIsFound(s, p, gt, close);
  }

  /** The scan of content that is one `Tag`. */
  lemma TagHeadings(d: char, attrs: string, text: string)
    requires IsLevelDigit(d) && '>' !in attrs && NoLt(text) && '\n' !in text
    ensures var t := Tag(d, attrs, text);
            Headings(t) == [Match(0, |t|, LevelOf(d), t, text)]
  {
    var t := Tag(d, attrs, text);
    assert t[0..|t|] == t;
    TagMatches(t, 0, d, attrs, text);
    ScanAfterMatch(t, 0);
  }

  /** The level written back is the digit read. */
  lemma LevelText(d: char)
    requires IsLevelDigit(d)
    ensures NatToString(LevelOf(d)) == [d]
  {
  }

  /**
   * Whatever the opening tag of a lone heading carries besides its level
   * (a class, a style, an id of the author's own), the rewrite keeps only
   * the level, the new id and the text.
   */
  lemma AttributesAreDropped(fmt: Formatting, d: char, attrs: string, text: string)
    requires IsLevelDigit(d) && '>' !in attrs && NoLt(text) && '\n' !in text
    ensures Generated(fmt, Tag(d, attrs, text)).content
         == "<h" + [d] + " id=\"" + fmt.escAttr(fmt.sanitizeTitle(fmt.stripAllTags(text))) + "\">" + text + "</h" + [d] + ">"
  {
    var t := Tag(d, attrs, text);
    var id := fmt.escAttr(fmt.sanitizeTitle(fmt.stripAllTags(text)));
    TagHeadings(d, attrs, text);
    var m := Headings(t)[0];
    assert m == Match(0, |t|, LevelOf(d), t, text);
    RewritesOnlyHeading(fmt, t);
    var r := Generated(fmt, t).content;
    assert r == t[..0] + HeadingMarkup(LevelOf(d), id, text) + t[|t|..];
    assert t[..0] == [] && t[|t|..] == [];
    Unwrapped(r, t[..0], HeadingMarkup(LevelOf(d), id, text), t[|t|..]);
    Spelled(LevelOf(d), d, id, text);
  }

  lemma Unwrapped(r: string, a: string, x: string, b: string)
    requires r == a + x + b && a == [] && b == []
    ensures r == x
  {
  }

  /** The rewritten heading written out, for a level whose digit is `d`. */
  lemma Spelled(level: Level, d: char, idAttr: string, text: string)
    requires IsLevelDigit(d) && level == LevelOf(d)
    ensures HeadingMarkup(level, idAttr, text) == "<h" + [d] + " id=\"" + idAttr + "\">" + text + "</h" + [d] + ">"
  {
    LevelText(d);
  }

  // ---------------------------------------------------------------------
  // A heading repeated word for word

  /** In a rewritten heading whose id and text hold no `<`, a `<` opens the tag or starts its closing tag. */
  lemma LtInMarkup(level: Level, idAttr: string, text: string, j: nat)
    requires NoLt(idAttr) && NoLt(text)
    requires j < |HeadingMarkup(level, idAttr, text)| && HeadingMarkup(level, idAttr, text)[j] == '<'
    ensures j == 0 || (j + 1 < |HeadingMarkup(level, idAttr, text)| && HeadingMarkup(level, idAttr, text)[j + 1] == '/')
  {
    var n := NatToString(level);
    assert n == [DigitChar(level)];
    var c := n[0];
    var p := ['<', 'h', c, ' ', 'i', 'd', '=', '"'];
    var q := ['"', '>'] + text + ['<', '/', 'h', c, '>'];
    var h := HeadingMarkup(level, idAttr, text);
    assert h == p + idAttr + q;
    if j < |p| {
      assert p[j] == '<';
    } else if j >= |p| + |idAttr| {
      var k := j - |p| - |idAttr|;
      assert q[k] == '<';
      if 2 <= k < 2 + |text| {
        assert false;
      }
    } else {
      assert false;
    }
  }

  /** The original heading does not occur in two rewritten copies of it. */
  lemma NoTagIn(level: Level, idAttr: string, d: char, text: string)
    requires NoLt(idAttr) && NoLt(text)
    ensures var h := HeadingMarkup(level, idAttr, text);
            forall i :: !OccursAt(h + h, Tag(d, "", text), i)
  {
    var h := HeadingMarkup(level, idAttr, text);
    var t := h + h;
    var f := Tag(d, "", text);
    TagChars(d, "", text);
    assert NatToString(level) == [DigitChar(level)];
    assert h[3] == ' ';
    forall i | OccursAt(t, f, i) ensures false {
      assert t[i..i + |f|] == f;
      assert t[i] == '<' && t[i + 1] == 'h' && t[i + 3] == '>';
      var j := if i < |h| then i else i - |h|;
      assert h[j] == '<' && (j + 1 < |h| ==> h[j + 1] == t[i + 1]);
      LtInMarkup(level, idAttr, text, j);
    }
  }

  /** The second copy gets `slug-1`: the only id used before it is the slug. */
  lemma SecondId(base: string)
    ensures FreshId(base, [base]) == base + "-1"
  {
    var used := [base];
    assert NatToString(1) == "1";
    assert Candidate(base, 1) == base + "-1" && Candidate(base, 0) in used;
    assert |base + "-1"| != |base|;
    assert IsFreshId(base + "-1", base, used);
    FreshIdOfSlug(base, used);
    FreshIdIsUnique(FreshId(base, used), base + "-1", base, used);
  }

  /** A `Tag` that `s` holds at `p` is matched there. */
  lemma TagMatchesAt(s: string, p: nat, d: char, text: string)
    requires IsLevelDigit(d) && NoLt(text) && '\n' !in text
    requires p + |Tag(d, "", text)| <= |s| && s[p..p + |Tag(d, "", text)|] == Tag(d, "", text)
    ensures MatchAt(s, p) == Some(Match(p, p + |Tag(d, "", text)|, LevelOf(d), Tag(d, "", text), text))
  {
    TagMatches(s, p, d, "", text);
  }

  /** The scan of content holding the same heading twice. */
  lemma TwiceHeadings(d: char, text: string)
    requires IsLevelDigit(d) && NoLt(text) && '\n' !in text
    ensures var t := Tag(d, "", text);
            Headings(t + t) == [Match(0, |t|, LevelOf(d), t, text), Match(|t|, 2 * |t|, LevelOf(d), t, text)]
  {
    var t := Tag(d, "", text);
    var s := t + t;
    var m1, m2 := Match(0, |t|, LevelOf(d), t, text), Match(|t|, 2 * |t|, LevelOf(d), t, text);
    assert s[0..|t|] == t && s[|t|..|t| + |t|] == t;
    assert t != [] by {
      TagChars(d, "", text);
    }
    TagMatchesAt(s, 0, d, text);
    TagMatchesAt(s, |t|, d, text);
    ScanAfterMatch(s, 0);
    ScanAfterMatch(s, |t|);
    assert Scan(s, 2 * |t|) == [];
    Joined3(Scan(s, 0), m1, Scan(s, |t|), m2, Scan(s, 2 * |t|));
  }

  lemma Joined3<T>(r: seq<T>, x: T, r1: seq<T>, y: T, r2: seq<T>)
    requires r == [x] + r1 && r1 == [y] + r2 && r2 == []
    ensures r == [x, y]
  {
  }

  lemma FirstItem(fmt: Formatting, ms: seq<Match>)
    requires |ms| > 0
    ensures ItemsOf(fmt, ms[..1])
         == [TocItem(ms[0].level, fmt.stripAllTags(ms[0].inner), fmt.sanitizeTitle(fmt.stripAllTags(ms[0].inner)))]
  {
    OneItem(fmt, ms[0]);
    assert ms[..1] == [ms[0]];
  }

  /** The second of two headings gets its id against the first one's. */
  lemma SecondStep(fmt: Formatting, ms: seq<Match>, first: TocItem)
    requires |ms| == 2 && ItemsOf(fmt, ms[..1]) == [first]
    ensures ItemsOf(fmt, ms) == [first, ItemFor(fmt, ms[1], [first.id])]
  {
    IdsOfOne(first);
    ItemsStep(fmt, ms, 1, [first]);
    assert ms[..2] == ms;
  }

  lemma IdsOfOne(item: TocItem)
    ensures IdsOf([item]) == [item.id]
  {
    IdsStep([], item);
    assert [] + [item] == [item];
  }

  lemma SecondItem(fmt: Formatting, m: Match, text: string, base: string)
    requires text == fmt.stripAllTags(m.inner) && base == fmt.sanitizeTitle(text)
    ensures ItemFor(fmt, m, [base]) == TocItem(m.level, text, base + "-1")
  {
    SecondId(base);
  }

  /** Two headings with the same text get the slug and then `slug-1`. */
  lemma TwiceItems(fmt: Formatting, ms: seq<Match>)
    requires |ms| == 2 && ms[0].level == ms[1].level && ms[0].inner == ms[1].inner
    ensures var text := fmt.stripAllTags(ms[0].inner);
            var base := fmt.sanitizeTitle(text);
            ItemsOf(fmt, ms) == [TocItem(ms[0].level, text, base), TocItem(ms[0].level, text, base + "-1")]
  {
    var text := fmt.stripAllTags(ms[0].inner);
    var base := fmt.sanitizeTitle(text);
    var first := TocItem(ms[0].level, text, base);
    FirstItem(fmt, ms);
    SecondStep(fmt, ms, first);
    SecondItem(fmt, ms[1], text, base);
  }

  /** `str_replace` on two copies of its search string. */
  lemma TwiceReplaced(t: string, h: string)
    requires t != []
    ensures ReplaceAll(t + t, t, h) == h + h
  {
    var tt := t + t;
    assert t <= tt && tt[|t|..] == t;
    ReplaceAllHit(tt, t, h);
    assert t <= t && t[|t|..] == [];
    ReplaceAllHit(t, t, h);
    Joined(ReplaceAll(tt, t, h), h, ReplaceAll(t, t, h), h, ReplaceAll([], t, h));
    assert ReplaceAll([], t, h) == [];
    assert h + h + [] == h + h;
  }

  /** Rewriting both copies at the first heading leaves nothing for the second. */
  lemma TwiceRewritten(fmt: Formatting, t: string, ms: seq<Match>, first: TocItem, second: TocItem)
    requires |ms| == 2 && ms[0].full == t && ms[1].full == t && t != []
    requires var h := HeadingMarkup(ms[0].level, fmt.escAttr(first.id), ms[0].inner);
             forall i :: !OccursAt(h + h, t, i)
    ensures Rewritten(fmt, t + t, ms, [first, second])
         == HeadingMarkup(ms[0].level, fmt.escAttr(first.id), ms[0].inner)
            + HeadingMarkup(ms[0].level, fmt.escAttr(first.id), ms[0].inner)
  {
    var h := HeadingMarkup(ms[0].level, fmt.escAttr(first.id), ms[0].inner);
    var h2 := HeadingMarkup(ms[1].level, fmt.escAttr(second.id), ms[1].inner);
    var content := t + t;
    var once := Rewritten(fmt, content, ms[..1], [first]);
    assert once == h + h by {
      assert ms[..1] == [ms[0]];
      OneRewrite(fmt, content, ms[0], first);
      assert once == ReplaceAll(t + t, t, h);
      TwiceReplaced(t, h);
    }
    RewrittenStep(fmt, content, ms, 1, [first], second);
    assert ms[..2] == ms && [first] + [second] == [first, second];
    assert Rewritten(fmt, content, ms, [first, second]) == ReplaceAll(once, t, h2);
  }

  /**
   * Two identical headings get two ids, `install` and `install-1` for a slug
   * `install`, but `str_replace` rewrites both copies when it handles the
   * first, so the content carries the first id twice and the second nowhere.
   */
  lemma DuplicateHeadingsShareFirstId(fmt: Formatting, d: char, text: string)
    requires EscapesLt(fmt) && IsLevelDigit(d) && NoLt(text) && '\n' !in text
    ensures var t := Tag(d, "", text);
            var base := fmt.sanitizeTitle(fmt.stripAllTags(text));
            var r := Generated(fmt, t + t);
            var h := HeadingMarkup(LevelOf(d), fmt.escAttr(base), text);
            && r.items == Some([TocItem(LevelOf(d), fmt.stripAllTags(text), base),
                                TocItem(LevelOf(d), fmt.stripAllTags(text), base + "-1")])
            && r.content == h + h
  {
    var t := Tag(d, "", text);
    TwiceHeadings(d, text);
    var ms := Headings(t + t);
    var base := fmt.sanitizeTitle(fmt.stripAllTags(text));
    var first := TocItem(LevelOf(d), fmt.stripAllTags(text), base);
    var second := TocItem(LevelOf(d), fmt.stripAllTags(text), base + "-1");
    TwiceItems(fmt, ms);
    assert NoLt(fmt.escAttr(base));
    NoTagIn(LevelOf(d), fmt.escAttr(base), d, text);
    assert t != [] by {
      TagChars(d, "", text);
    }
    TwiceRewritten(fmt, t, ms, first, second);
  }
}
