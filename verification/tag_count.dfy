/**
 * Counting tags in generated markup. A tag pattern such as `<ul` or `</li>`
 * starts with `<` and has no other `<`; markup is built from pieces that
 * each start with a tag, so counting a pattern in the whole is adding up its
 * counts in the pieces.
 */
module TagCount {
  import opened Php
  import opened Host

  /** The number of positions in `s` where `p` occurs. */
  function CountOf(s: string, p: string): nat
    decreases |s|, 1
  {
    CountFromStart(s, p)
  }

  /**
   * One step of `CountOf`: whether `p` starts `s`, plus the count in the
   * rest. The count is split over two functions so that a proof sees a step
   * only where it asks for it, through `CountOfStep`.
   */
  function CountFromStart(s: string, p: string): nat
    decreases |s|, 0
  {
    if s == [] then 0 else (if p <= s then 1 else 0) + CountOf(s[1..], p)
  }

  /** Counting looks at the first position, then at the rest. */
  lemma CountOfStep(s: string, p: string)
    ensures CountOf(s, p) == if s == [] then 0 else (if p <= s then 1 else 0) + CountOf(s[1..], p)
  {
    assert CountOf(s, p) == CountFromStart(s, p);
  }

  /** A tag pattern: it starts with `<` and has no other `<`. */
  predicate Pattern(p: string) {
    |p| > 0 && p[0] == '<' && NoLt(p[1..])
  }

  /** A piece of output that is empty or starts with a tag. */
  predicate StartsTag(s: string) {
    s == [] || s[0] == '<'
  }

  /** One tag and the text after it: a `<` first and no other. */
  predicate TagPiece(t: string) {
    |t| > 0 && t[0] == '<' && NoLt(t[1..])
  }

  /** A tag pattern never occurs in text without a `<`. */
  lemma {:induction false} CountOfNoLt(s: string, p: string)
    requires Pattern(p) && NoLt(s)
    ensures CountOf(s, p) == 0
    decreases |s|
  {
    CountOfStep(s, p);
    if s != [] {
      CountOfNoLt(s[1..], p);
    }
  }

  /** A tag piece holds the pattern once if it starts with it, and otherwise not at all. */
  lemma CountOfTagPiece(t: string, p: string)
    requires TagPiece(t) && Pattern(p)
    ensures CountOf(t, p) == if p <= t then 1 else 0
  {
    CountOfStep(t, p);
    CountOfNoLt(t[1..], p);
  }

  /** A pattern that starts `a + b` ends inside `a`: past the seam it would meet the `<` that starts `b`. */
  lemma NoStraddle(a: string, b: string, p: string)
    requires Pattern(p) && StartsTag(b) && a != [] && p <= a + b
    ensures |p| <= |a|
  {
    if b != [] {
      assert (a + b)[|a|] == '<';
    }
  }

  /**
   * Counting distributes over a concatenation whose right part starts with
   * a tag: an occurrence of a pattern cannot straddle the seam, since it
   * would need a second `<`.
   */
  lemma {:induction false} CountOfConcat(a: string, b: string, p: string)
    requires Pattern(p) && StartsTag(b)
    ensures CountOf(a + b, p) == CountOf(a, p) + CountOf(b, p)
    decreases |a|
  {
    CountOfStep(a + b, p);
    CountOfStep(a, p);
    if a == [] {
      assert a + b == b;
    } else {
      if p <= a + b {
        NoStraddle(a, b, p);
      }
      if |p| <= |a| {
        assert (a + b)[..|p|] == a[..|p|];
      }
      assert (a + b)[1..] == a[1..] + b;
      CountOfConcat(a[1..], b, p);
    }
  }

  /** A tag piece followed by text without `<` is still one tag piece. */
  lemma TagPieceConcat(t: string, x: string)
    requires TagPiece(t) && NoLt(x)
    ensures TagPiece(t + x)
  {
    assert (t + x)[1..] == t[1..] + x;
  }

  /** The head `h` decides whether `p` starts `h + x`, whatever `x` is. */
  predicate Decides(h: string, p: string) {
    |p| <= |h| || !(h <= p)
  }

  /**
   * A pattern occurs in a tag piece written as its head and tag-free text
   * exactly as often as in the head alone, when the head decides it.
   */
  lemma CountOfHead(h: string, x: string, p: string)
    requires TagPiece(h) && NoLt(x) && Pattern(p) && Decides(h, p)
    ensures CountOf(h + x, p) == CountOf(h, p)
  {
    TagPieceConcat(h, x);
    CountOfTagPiece(h, p);
    CountOfTagPiece(h + x, p);
    if |p| <= |h| {
      assert (h + x)[..|p|] == h[..|p|];
    }
  }

  lemma NoLtConcat(a: string, b: string)
    requires NoLt(a) && NoLt(b)
    ensures NoLt(a + b)
  {
  }

  lemma NoLtOfDigits(s: string)
    requires forall i :: 0 <= i < |s| ==> IsDigit(s[i])
    ensures NoLt(s)
  {
  }
}
