/**
 * The plugin's bootstrap file, ct-docs.php: the class autoloader, the
 * read-time helper and the related-docs helper.
 */
module Plugin {
  import opened Php
  import opened Host

  // ---------------------------------------------------------------------
  // The autoloader

  const ClassPrefix: string := "CT_Docs_"

  /** The class name turned into the middle of its file name. */
  function FileStem(className: string): string {
    Lower(ReplaceAll(ReplaceAll(className, ClassPrefix, ""), "_", "-"))
  }

  /** The three files tried for a class, in the order they are tried. */
  function Candidates(path: string, className: string): (r: seq<string>)
    ensures |r| == 3
    ensures forall i :: 0 <= i < 3 ==> StartsWith(r[i], path)
    ensures r[0] != r[1] && r[1] != r[2] && r[0] != r[2]
  {
    var file := "class-ct-docs-" + FileStem(className) + ".php";
    var r := [path + "includes/" + file, path + "elementor/" + file, path + "admin/" + file];
    assert r[0][|path|] == 'i' && r[1][|path|] == 'e' && r[2][|path|] == 'a';
    assert forall i :: 0 <= i < 3 ==> r[i][..|path|] == path;
    r
  }

  /**
   * The file the autoloader requires for `className`, if any: `path` is the
   * plugin directory and `fileExists` answers `file_exists`.
   */
  function Autoload(path: string, fileExists: string -> bool, className: string): (r: Option<string>)
    ensures !StartsWith(className, ClassPrefix) ==> r == None
    ensures StartsWith(className, ClassPrefix) ==>
              (r == None <==> forall i :: 0 <= i < 3 ==> !fileExists(Candidates(path, className)[i]))
    ensures r.Some? ==>
              && StartsWith(className, ClassPrefix)
              && exists i :: 0 <= i < 3 && r.value == Candidates(path, className)[i] && fileExists(r.value) &&
                   forall j :: 0 <= j < i ==> !fileExists(Candidates(path, className)[j])
  {
    if !StartsWith(className, ClassPrefix) then None
    else
      var files := Candidates(path, className);
      if fileExists(files[0]) then Some(files[0])
      else if fileExists(files[1]) then Some(files[1])
      else if fileExists(files[2]) then Some(files[2])
      else None
  }

  /** Replacing a one-byte string leaves none of it behind when the replacement does not hold it. */
  lemma {:induction false} ReplaceAllRemovesByte(s: string, c: char, replace: string)
    requires c !in replace
    ensures c !in ReplaceAll(s, [c], replace)
    decreases |s|
  {
    if s == [] {
    } else if [c] <= s {
      ReplaceAllRemovesByte(s[1..], c, replace);
    } else {
      ReplaceAllRemovesByte(s[1..], c, replace);
      assert s[0] != c;
    }
  }

  /** A file stem never holds an underscore or an upper-case letter. */
  lemma FileStemShape(className: string)
    ensures '_' !in FileStem(className)
    ensures forall i :: 0 <= i < |FileStem(className)| ==> !('A' <= FileStem(className)[i] <= 'Z')
  {
    var dashed := ReplaceAll(ReplaceAll(className, ClassPrefix, ""), "_", "-");
    ReplaceAllRemovesByte(ReplaceAll(className, ClassPrefix, ""), '_', "-");
    forall i | 0 <= i < |dashed| ensures LowerChar(dashed[i]) != '_' {
      assert dashed[i] != '_';
    }
  }

  /** Only the leading prefix is taken off a class name that holds it once. */
  lemma FileStemOfPrefixed(rest: string)
    requires forall i :: !OccursAt(rest, ClassPrefix, i)
    ensures FileStem(ClassPrefix + rest) == Lower(ReplaceAll(rest, "_", "-"))
  {
    var name := ClassPrefix + rest;
    assert ClassPrefix <= name;
    assert name[|ClassPrefix|..] == rest;
    assert ReplaceAll(name, ClassPrefix, "") == "" + ReplaceAll(rest, ClassPrefix, "");
    assert "" + rest == rest;
  }

  // ---------------------------------------------------------------------
  // Read time

  /** `ceil( $a / $b )` for whole numbers. */
  function CeilDiv(a: nat, b: nat): (r: nat)
    requires b > 0
    ensures a == 0 ==> r == 0
    ensures a > 0 ==> (r - 1) * b < a <= r * b
  {
    (a + b - 1) / b
  }

  /** `max( 1, ceil( $word_count / 200 ) )`: minutes at 200 words a minute, at least one. */
  function ReadMinutes(words: nat): (m: nat)
    ensures m >= 1
    ensures words <= 200 ==> m == 1
    ensures words > 0 ==> (m - 1) * 200 < words <= m * 200
  {
    var minutes := CeilDiv(words, 200);
    if minutes < 1 then 1 else minutes
  }

  /** The longest run of digits `s` starts with. */
  function LeadingDigits(s: string): (r: string)
    ensures r <= s
    ensures forall i :: 0 <= i < |r| ==> IsDigit(r[i])
    ensures |r| < |s| ==> !IsDigit(s[|r|])
  {
    if s == [] || !IsDigit(s[0]) then [] else [s[0]] + LeadingDigits(s[1..])
  }

  /** `intval()` of a stored meta value: its leading digits read as a number, 0 when there are none. */
  function IntVal(s: string): (r: int)
    ensures r >= 0
    ensures s == [] || !IsDigit(s[0]) ==> r == 0
  {
    DigitsValue(LeadingDigits(s))
  }

  /** The leading digits stop at the first byte that is not one. */
  lemma {:induction false} LeadingDigitsThen(digits: string, rest: string)
    requires forall i :: 0 <= i < |digits| ==> IsDigit(digits[i])
    requires rest == [] || !IsDigit(rest[0])
    ensures LeadingDigits(digits + rest) == digits
    decreases |digits|
  {
    if digits != [] {
      LeadingDigitsThen(digits[1..], rest);
      assert (digits + rest)[1..] == digits[1..] + rest;
      assert [digits[0]] + digits[1..] == digits;
    } else {
      assert digits + rest == rest;
    }
  }

  /** `intval` of digits followed by anything else, `"12px"` say, is the value of the digits. */
  lemma IntValOfDigitsThen(digits: string, rest: string)
    requires forall i :: 0 <= i < |digits| ==> IsDigit(digits[i])
    requires rest == [] || !IsDigit(rest[0])
    ensures IntVal(digits + rest) == DigitsValue(digits)
  {
    LeadingDigitsThen(digits, rest);
  }

  lemma {:induction false} LeadingDigitsOfDigits(s: string)
    requires forall i :: 0 <= i < |s| ==> IsDigit(s[i])
    ensures LeadingDigits(s) == s
    decreases |s|
  {
    if s != [] {
      LeadingDigitsOfDigits(s[1..]);
      assert s == [s[0]] + s[1..];
    }
  }

  /** What `empty()` counts as empty reads as 0. */
  lemma EmptyIntVal(s: string)
    requires IsEmptyString(s)
    ensures IntVal(s) == 0
  {
    if s == "0" {
      assert LeadingDigits(s) == s;
      assert |s| == 1 && s[0] == '0' && s[..0] == [];
      assert DigitsValue(s) == DigitsValue([]) * 10 + 0;
    }
  }

  /** A read time the plugin stores is non-empty and `intval` reads it back. */
  lemma StoredReadTimeReadsBack(minutes: nat)
    requires minutes >= 1
    ensures !IsEmptyString(NatToString(minutes))
    ensures IntVal(NatToString(minutes)) == minutes
  {
    LeadingDigitsOfDigits(NatToString(minutes));
    NatToStringRoundTrip(minutes);
  }

  /** The `_ct_docs_read_time` meta of every post. */
  class PostMeta {
    var readTime: map<nat, string>

    constructor ()
      ensures readTime == map[]
    {
      readTime := map[];
    }

    /** `get_post_meta( $id, '_ct_docs_read_time', true )`: the empty string when unset. */
    function Get(id: nat): (r: string)
      reads this
      ensures id !in readTime ==> r == ""
    {
      if id in readTime then readTime[id] else ""
    }

    /** `update_post_meta( $id, '_ct_docs_read_time', $minutes )`; the number is stored as its decimal text. */
    method Update(id: nat, minutes: nat)
      modifies this
      ensures readTime == old(readTime)[id := NatToString(minutes)]
      ensures Get(id) == NatToString(minutes)
    {
      readTime := readTime[id := NatToString(minutes)];
    }
  }

  /** The words `str_word_count( wp_strip_all_tags( $content ) )` counts in a post. */
  function WordsOf(fmt: Formatting, wordCount: string -> nat, post: Post): nat {
    wordCount(fmt.stripAllTags(post.content))
  }

  /**
   * `ct_docs_get_read_time( $post_id )`: a missing id (0) stands for the
   * current post; `getPost` is `get_post`.
   */
  method GetReadTime(meta: PostMeta, fmt: Formatting, wordCount: string -> nat, getPost: nat -> Option<Post>,
                     postId: nat, currentId: nat) returns (minutes: int)
    modifies meta
    ensures var id := if postId == 0 then currentId else postId;
            if !IsEmptyString(old(meta.Get(id))) then
              minutes == IntVal(old(meta.Get(id))) && meta.readTime == old(meta.readTime)
            else if getPost(id).Some? then
              && minutes == ReadMinutes(WordsOf(fmt, wordCount, getPost(id).value))
              && meta.readTime == old(meta.readTime)[id := NatToString(minutes)]
            else
              minutes == 0 && meta.readTime == old(meta.readTime)
  {
    var id := postId;
    if id == 0 {
      id := currentId;
    }
    var readTime := meta.Get(id);
    if IsEmptyString(readTime) {
      EmptyIntVal(readTime);
      var post := getPost(id);
      if post.Some? {
        var words := wordCount(fmt.stripAllTags(post.value.content));
        var computed := ReadMinutes(words);
        meta.Update(id, computed);
        StoredReadTimeReadsBack(computed);
        readTime := NatToString(computed);
      }
    }
    minutes := IntVal(readTime);
  }

  // ---------------------------------------------------------------------
  // Related docs

  /**
   * The arguments of a `get_posts` call for published docs, newest first:
   * `posts_per_page`, `post__not_in` and, when present, a `doc_category`
   * filter on term ids.
   */
  datatype DocsQuery = DocsQuery(perPage: int, notIn: seq<nat>, termIds: Option<seq<nat>>)

  /**
   * What `get_posts` is relied on for: no more posts than asked for (when a
   * positive number is asked for), none of the excluded ones, and no post
   * twice.
   */
  ghost predicate HonoursQuery(getPosts: DocsQuery -> seq<Post>) {
    && (forall q: DocsQuery :: q.perPage >= 1 ==> |getPosts(q)| <= q.perPage)
    && (forall q: DocsQuery, i :: 0 <= i < |getPosts(q)| ==> getPosts(q)[i].id !in q.notIn)
    && (forall q: DocsQuery, i, j :: 0 <= i < j < |getPosts(q)| ==> getPosts(q)[i].id != getPosts(q)[j].id)
  }

  /** The same-category query. */
  function SameCategoryQuery(postId: nat, limit: int, terms: seq<Term>): DocsQuery {
    DocsQuery(limit, [postId], Some(TermIds(terms)))
  }

  /** The top-up query, for what the same-category posts left unfilled. */
  function TopUpQuery(postId: nat, limit: int, first: seq<Post>): DocsQuery {
    DocsQuery(limit - |first|, [postId] + PostIds(first), None)
  }

  /**
   * `ct_docs_get_related( $post_id, $limit )`: posts sharing a category with
   * the post, topped up from any category when they are fewer than `limit`.
   */
  function Related(terms: TermLookup, getPosts: DocsQuery -> seq<Post>, postId: nat, currentId: nat, limit: int): (r: seq<Post>)
    ensures var id := if postId == 0 then currentId else postId;
            TermsOf(terms, id) == [] ==> r == []
    ensures var id := if postId == 0 then currentId else postId;
            var first := getPosts(SameCategoryQuery(id, limit, TermsOf(terms, id)));
            TermsOf(terms, id) != [] ==>
              && first <= r
              && (|first| < limit ==> r[|first|..] == getPosts(TopUpQuery(id, limit, first)))
              && (|first| >= limit ==> r == first)
  {
    var id := if postId == 0 then currentId else postId;
    var postTerms := TermsOf(terms, id);
    if postTerms == [] then []
    else
      var related := getPosts(SameCategoryQuery(id, limit, postTerms));
      if |related| < limit then
        var more := getPosts(DocsQuery(limit - |related|, [id] + PostIds(related), None));
        assert (related + more)[|related|..] == more;
        related + more
      else related
  }

  /** With a positive limit and a query that honours its arguments, there are at most `limit` related docs. */
  lemma RelatedAtMostLimit(terms: TermLookup, getPosts: DocsQuery -> seq<Post>, postId: nat, currentId: nat, limit: int)
    requires HonoursQuery(getPosts)
    requires limit >= 1
    ensures |Related(terms, getPosts, postId, currentId, limit)| <= limit
  {
    var id := if postId == 0 then currentId else postId;
    var first := getPosts(SameCategoryQuery(id, limit, TermsOf(terms, id)));
    if TermsOf(terms, id) != [] && |first| < limit {
      var r := Related(terms, getPosts, postId, currentId, limit);
      assert r == first + r[|first|..];
      assert |r[|first|..]| <= limit - |first|;
    }
  }

  /** Related docs never include the post itself, nor any post twice. */
  lemma RelatedExcludesPost(terms: TermLookup, getPosts: DocsQuery -> seq<Post>, postId: nat, currentId: nat, limit: int)
    requires HonoursQuery(getPosts)
    ensures var id := if postId == 0 then currentId else postId;
            var r := Related(terms, getPosts, postId, currentId, limit);
            (forall i :: 0 <= i < |r| ==> r[i].id != id) &&
            (forall i, j :: 0 <= i < j < |r| ==> r[i].id != r[j].id)
  {
    var id := if postId == 0 then currentId else postId;
    var r := Related(terms, getPosts, postId, currentId, limit);
    if TermsOf(terms, id) != [] {
      var q1 := SameCategoryQuery(id, limit, TermsOf(terms, id));
      var first := getPosts(q1);
      assert forall i :: 0 <= i < |first| ==> first[i].id !in q1.notIn;
      if |first| < limit {
        var q2 := TopUpQuery(id, limit, first);
        var more := getPosts(q2);
        assert r == first + more;
        forall i | 0 <= i < |more| ensures more[i].id != id && more[i].id !in PostIds(first) {
          assert more[i].id !in q2.notIn;
        }
        forall i, j | 0 <= i < j < |r| ensures r[i].id != r[j].id {
          if j < |first| {
            assert r[i] == first[i] && r[j] == first[j];
          } else if i < |first| {
            assert r[j] == more[j - |first|];
            assert PostIds(first)[i] == r[i].id;
          } else {
            assert r[i] == more[i - |first|] && r[j] == more[j - |first|];
          }
        }
      }
    }
  }
}
