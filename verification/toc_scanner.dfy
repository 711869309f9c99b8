/**
 * The heading scanner of the table-of-contents generator
 * (includes/class-ct-docs-toc-generator.php): what
 * `preg_match_all( '/<h([2-5])[^>]*>(.*?)<\/h[2-5]>/i', $content, ... )`
 * finds, written as an explicit scan over the content.
 *
 * Reading of the pattern, byte by byte:
 *  - `<h` (either case) and one digit 2..5 open a heading; `<h1` and `<h6`
 *    never do;
 *  - `[^>]*>` runs to the first `>` after that digit, whatever lies between
 *    (attributes, or any other bytes);
 *  - `(.*?)` is the shortest run of bytes other than a newline (there is no
 *    `s` flag) that is followed by `</h` and a digit 2..5 and `>`; the
 *    closing digit need not match the opening one;
 *  - matches are leftmost and do not overlap: after a match the search goes
 *    on where it ended, after a failed start one byte further.
 */
module TocScanner {
  import opened Php

  /** A heading level the pattern accepts. */
  type Level = l: int | 2 <= l <= 5 witness 2

  predicate IsH(c: char) {
    c == 'h' || c == 'H'
  }

  predicate IsLevelDigit(c: char) {
    '2' <= c <= '5'
  }

  /** `intval( $match[1] )` */
  function LevelOf(c: char): Level
    requires IsLevelDigit(c)
  {
    c as int - '0' as int
  }

  /** `<h[2-5]` starts at `p`. */
  predicate OpensAt(s: string, p: int) {
    0 <= p && p + 3 <= |s| && s[p] == '<' && IsH(s[p + 1]) && IsLevelDigit(s[p + 2])
  }

  /** `<\/h[2-5]>` starts at `k`, of any level. */
  predicate ClosesAt(s: string, k: int) {
    0 <= k && k + 5 <= |s| && s[k] == '<' && s[k + 1] == '/' && IsH(s[k + 2])
    && IsLevelDigit(s[k + 3]) && s[k + 4] == '>'
  }

  /** No newline in `s[a..b]`. */
  predicate NewlineFree(s: string, a: int, b: int)
    requires 0 <= a <= b <= |s|
  {
    forall j :: a <= j < b ==> s[j] != '\n'
  }

  /**
   * The declarative reading of the pattern at `p`: the opening tag ends at
   * `gt`, the first `>` after the level digit, and the inner markup
   * `s[gt + 1..close]` is the shortest newline-free run followed by a closing
   * tag at `close`.
   */
  predicate IsHeadingAt(s: string, p: int, gt: int, close: int) {
    && OpensAt(s, p)
    && p + 3 <= gt < close
    && ClosesAt(s, close)
    && s[gt] == '>'
    && (forall j :: p + 3 <= j < gt ==> s[j] != '>')
    && NewlineFree(s, gt + 1, close)
    && (forall j :: gt + 1 <= j < close ==> !ClosesAt(s, j))
  }

  /**
   * One entry of `$matches`: `full` is `$match[0]`, `level` the value of
   * `$match[1]`, `inner` is `$match[2]`; `start` and `end` delimit `full`.
   */
  datatype Match = Match(start: nat, end: nat, level: Level, full: string, inner: string)

  /** The first `>` at or after `i`: where `[^>]*>` stops. */
  function FindGt(s: string, i: nat): (r: Option<nat>)
    ensures r.Some? ==> i <= r.value < |s|
    decreases |s| - i
  {
    if i >= |s| then None
    else if s[i] == '>' then Some(i)
    else FindGt(s, i + 1)
  }

  /** `FindGt` finds the first `>`, and finds none only when there is none. */
  lemma {:induction false} FindGtIsFirst(s: string, i: nat)
    ensures FindGt(s, i).Some? ==> s[FindGt(s, i).value] == '>'
    ensures FindGt(s, i).Some? ==> forall j :: i <= j < FindGt(s, i).value ==> s[j] != '>'
    ensures FindGt(s, i).None? ==> forall j :: i <= j < |s| ==> s[j] != '>'
    decreases |s| - i
  {
    if i < |s| && s[i] != '>' {
      FindGtIsFirst(s, i + 1);
    }
  }

  /** Where the shortest `(.*?)` from `i` meets a closing tag, if it does before a newline. */
  function FindClose(s: string, i: nat): (r: Option<nat>)
    ensures r.Some? ==> i <= r.value && r.value + 5 <= |s|
    decreases |s| - i
  {
    if i >= |s| then None
    else if ClosesAt(s, i) then Some(i)
    else if s[i] == '\n' then None
    else FindClose(s, i + 1)
  }

  /**
   * `FindClose` finds the first closing tag when no newline comes before it,
   * and finds none exactly when every closing tag has a newline before it.
   */
  lemma {:induction false} FindCloseIsFirst(s: string, i: nat)
    requires i <= |s|
    ensures FindClose(s, i).Some? ==>
      var k := FindClose(s, i).value;
      ClosesAt(s, k) && NewlineFree(s, i, k) && forall j :: i <= j < k ==> !ClosesAt(s, j)
    ensures FindClose(s, i).None? ==> forall k :: i <= k && ClosesAt(s, k) ==> !NewlineFree(s, i, k)
    decreases |s| - i
  {
    if i < |s| && !ClosesAt(s, i) && s[i] != '\n' {
      FindCloseIsFirst(s, i + 1);
    }
  }

  /** The match the pattern makes when tried at `p`, if any. */
  function MatchAt(s: string, p: nat): (r: Option<Match>)
    ensures r.Some? ==> r.value.start == p && p + 8 <= r.value.end <= |s|
  {
    if !OpensAt(s, p) then None
    else match FindGt(s, p + 3)
      case None => None
      case Some(gt) =>
        match FindClose(s, gt + 1)
        case None => None
        case Some(close) =>
          Some(Match(p, close + 5, LevelOf(s[p + 2]), s[p..close + 5], s[gt + 1..close]))
  }

  /**
   * The search agrees with the declarative reading of the pattern: a match
   * at `p` exists exactly when some `gt` and `close` make a heading there,
   * and then the match is that heading, its level the opening digit.
   */
  lemma MatchAtIsHeading(s: string, p: nat)
    ensures MatchAt(s, p).Some? ==>
      var m := MatchAt(s, p).value;
      && OpensAt(s, p) && m.level == LevelOf(s[p + 2])
      && m.full == s[p..m.end]
      && IsHeadingAt(s, p, m.end - 6 - |m.inner|, m.end - 5)
      && m.inner == s[m.end - 5 - |m.inner|..m.end - 5]
    ensures MatchAt(s, p).None? ==> forall gt, close :: !IsHeadingAt(s, p, gt, close)
  {
    forall gt, close | IsHeadingAt(s, p, gt, close) ensures MatchAt(s, p).Some? {
      HeadingIsFound(s, p, gt, close);
    }
    if MatchAt(s, p).Some? {
      MatchIsHeading(s, p);
    }
  }

  /** A match the search finds is a heading in the declarative sense. */
  lemma MatchIsHeading(s: string, p: nat)
    requires MatchAt(s, p).Some?
    ensures var m := MatchAt(s, p).value;
      && OpensAt(s, p) && m.level == LevelOf(s[p + 2])
      && m.full == s[p..m.end]
      && IsHeadingAt(s, p, m.end - 6 - |m.inner|, m.end - 5)
      && m.inner == s[m.end - 5 - |m.inner|..m.end - 5]
  {
    var gt := FindGt(s, p + 3).value;
    var close := FindClose(s, gt + 1).value;
    FoundIsHeading(s, p, gt, close);
    assert MatchAt(s, p).value == Match(p, close + 5, LevelOf(s[p + 2]), s[p..close + 5], s[gt + 1..close]);
  }

  /** The positions the search stops at make a heading in the declarative sense. */
  lemma FoundIsHeading(s: string, p: nat, gt: nat, close: nat)
    requires OpensAt(s, p) && FindGt(s, p + 3) == Some(gt) && FindClose(s, gt + 1) == Some(close)
    ensures IsHeadingAt(s, p, gt, close)
  {
    FindGtIsFirst(s, p + 3);
    FindCloseIsFirst(s, gt + 1);
  }

  /** A heading in the declarative sense is what the search finds. */
  lemma HeadingIsFound(s: string, p: nat, gt: int, close: int)
    requires IsHeadingAt(s, p, gt, close)
    ensures FindGt(s, p + 3) == Some(gt)
    ensures FindClose(s, gt + 1) == Some(close)
  {
    FindGtIsFirst(s, p + 3);
    var g := FindGt(s, p + 3);
    assert g.Some?;
    assert g.value == gt;
    FindCloseIsFirst(s, gt + 1);
    var c := FindClose(s, gt + 1);
    assert c.Some?;
    assert c.value == close;
  }

  /** No match starts in `[a, b)`. */
  predicate NoneIn(s: string, a: int, b: int) {
    forall p: nat :: a <= p < b ==> MatchAt(s, p).None?
  }

  /**
   * `preg_match_all` from position `from`: the leftmost match, then the
   * matches after its end. Each entry is what the pattern finds at its
   * start, and entries come in document order without overlapping;
   * `ScanSkipsNothing` adds that no match starts in a gap between them.
   */
  function Scan(s: string, from: nat): (r: seq<Match>)
    ensures forall i :: 0 <= i < |r| ==> from <= r[i].start < r[i].end <= |s|
    ensures forall i, j :: 0 <= i < j < |r| ==> r[i].end <= r[j].start
    decreases |s| - from
  {
    if from >= |s| then
      []
    else
      var mm := MatchAt(s, from);
      if mm.Some? then [mm.value] + Scan(s, mm.value.end)
      else Scan(s, from + 1)
  }

  /** Where the first entry of a scan result starts, the end of the content if there is none. */
  function FirstStart(s: string, r: seq<Match>): int {
    if |r| == 0 then |s| else r[0].start
  }

  /** Where the last entry of a scan result ends, `from` if there is none. */
  function LastEnd(from: nat, r: seq<Match>): int {
    if |r| == 0 then from else r[|r| - 1].end
  }

  /** Each entry of a scan is what the pattern finds at the entry's start. */
  lemma {:induction false} ScanFindsMatches(s: string, from: nat, i: nat)
    requires i < |Scan(s, from)|
    ensures MatchAt(s, Scan(s, from)[i].start) == Some(Scan(s, from)[i])
    decreases |s| - from
  {
    var mm := MatchAt(s, from);
    if mm.Some? {
      if i > 0 {
        ScanFindsMatches(s, mm.value.end, i - 1);
      }
    } else {
      ScanFindsMatches(s, from + 1, i);
    }
  }

  /** The scan is leftmost: no match starts before its first entry. */
  lemma {:induction false} ScanSkipsNothing(s: string, from: nat)
    ensures NoneIn(s, from, FirstStart(s, Scan(s, from)))
    decreases |s| - from
  {
    if from < |s| && MatchAt(s, from).None? {
      ScanSkipsNothing(s, from + 1);
      NoneInExtend(s, from, FirstStart(s, Scan(s, from)));
    }
  }

  /** A match at `from` is the scan's first entry, and the rest of the scan starts at its end. */
  lemma ScanAfterMatch(s: string, from: nat)
    requires from < |s| && MatchAt(s, from).Some?
    ensures Scan(s, from) == [MatchAt(s, from).value] + Scan(s, MatchAt(s, from).value.end)
  {
  }

  /** A failed start at `from` is skipped. */
  lemma ScanAfterMiss(s: string, from: nat)
    requires from < |s| && MatchAt(s, from).None?
    ensures Scan(s, from) == Scan(s, from + 1)
  {
  }

  /** No match starts after the last entry of a scan. */
  lemma {:induction false} ScanLeavesNothing(s: string, from: nat)
    ensures NoneIn(s, LastEnd(from, Scan(s, from)), |s|)
    decreases |s| - from
  {
    if from < |s| {
      if MatchAt(s, from).Some? {
        var next := MatchAt(s, from).value.end;
        ScanLeavesNothing(s, next);
        ScanAfterMatch(s, from);
      } else {
        ScanLeavesNothing(s, from + 1);
        ScanAfterMiss(s, from);
        if Scan(s, from + 1) == [] {
          NoneInExtend(s, from, |s|);
        }
      }
    }
  }

  /** No match starts in the gap between two neighbouring entries of a scan. */
  lemma {:induction false} ScanSkipsNoGap(s: string, from: nat, i: nat)
    requires i + 1 < |Scan(s, from)|
    ensures NoneIn(s, Scan(s, from)[i].end, Scan(s, from)[i + 1].start)
    decreases |s| - from
  {
    var r := Scan(s, from);
    var mm := MatchAt(s, from);
    if mm.Some? {
      var rest := Scan(s, mm.value.end);
      assert r == [mm.value] + rest;
      if i == 0 {
        ScanSkipsNothing(s, mm.value.end);
      } else {
        ScanSkipsNoGap(s, mm.value.end, i - 1);
      }
    } else {
      ScanSkipsNoGap(s, from + 1, i);
    }
  }

  /** A failed start in front of a match-free stretch extends it. */
  lemma NoneInExtend(s: string, a: nat, b: int)
    requires MatchAt(s, a).None? && NoneIn(s, a + 1, b)
    ensures NoneIn(s, a, b)
  {
  }

  /** The matches `generate` works through. */
  function Headings(content: string): seq<Match> {
    Scan(content, 0)
  }

  /**
   * Every heading found is an opening `<h` tag of its level followed, at its
   * very end, by a closing tag of some level 2..5, and it is a piece of the
   * content.
   */
  lemma HeadingsAreWellFormed(content: string, i: nat)
    requires i < |Headings(content)|
    ensures var m := Headings(content)[i];
      && m.end <= |content| && m.full == content[m.start..m.end]
      && OpensAt(m.full, 0) && LevelOf(m.full[2]) == m.level
      && ClosesAt(m.full, |m.full| - 5)
  {
    var m := Headings(content)[i];
    ScanFindsMatches(content, 0, i);
    MatchIsHeading(content, m.start);
    assert m.full[|m.full| - 5..] == content[m.end - 5..m.end];
  }

  /** A closing tag of another level still ends the heading: `<h2>A</h5>` is matched at level 2. */
  lemma MismatchedCloseIsAccepted()
    ensures MatchAt("<h2>A</h5>", 0) == Some(Match(0, 10, 2, "<h2>A</h5>", "A"))
  {
    var s := "<h2>A</h5>";
    assert s == ['<', 'h', '2', '>', 'A', '<', '/', 'h', '5', '>'];
    assert FindGt(s, 3) == Some(3);
    assert FindClose(s, 5) == Some(5);
    assert FindClose(s, 4) == Some(5);
    assert s[0..10] == s;
    assert s[4..5] == "A";
  }

  /** The inner markup is cut at the first closing tag, not at the matching one. */
  lemma InnerStopsAtFirstClose()
    ensures MatchAt("<h2>A</h3>B</h2>", 0) == Some(Match(0, 10, 2, "<h2>A</h3>", "A"))
  {
    var s := "<h2>A</h3>B</h2>";
    assert s == ['<', 'h', '2', '>', 'A', '<', '/', 'h', '3', '>', 'B', '<', '/', 'h', '2', '>'];
    assert FindGt(s, 3) == Some(3);
    assert FindClose(s, 5) == Some(5);
    assert FindClose(s, 4) == Some(5);
    assert s[0..10] == "<h2>A</h3>";
    assert s[4..5] == "A";
  }

  /** A newline between the tags stops the heading from matching at all. */
  lemma NewlineBreaksHeading()
    ensures MatchAt("<h2>A\nB</h2>", 0).None?
  {
    var s := "<h2>A\nB</h2>";
    assert s == ['<', 'h', '2', '>', 'A', '\n', 'B', '<', '/', 'h', '2', '>'];
    assert FindGt(s, 3) == Some(3);
    assert FindClose(s, 5) == None;
    assert FindClose(s, 4) == None;
  }
}
