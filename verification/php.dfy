/**
 * The PHP built-ins the plugin leans on, over byte strings.
 *
 * Strings are `seq<char>` read as bytes: none of the plugin's patterns carry
 * the `u` flag, so matching and case folding are byte-wise and ASCII-only.
 */
module Php {

  datatype Option<+T> = None | Some(value: T)

  /** `strpos($s, $prefix) === 0` */
  predicate StartsWith(s: string, prefix: string) {
    prefix <= s
  }

  /** `strtolower` on one byte: only `A`..`Z` change. */
  function LowerChar(c: char): char {
    if 'A' <= c <= 'Z' then (c as int + 32) as char else c
  }

  /** `strtolower`, byte by byte. */
  function Lower(s: string): (r: string)
    ensures |r| == |s|
    ensures forall i :: 0 <= i < |s| ==> r[i] == LowerChar(s[i])
  {
    seq(|s|, i requires 0 <= i < |s| => LowerChar(s[i]))
  }

  /** The two strings are equal up to ASCII case (PCRE's `i` flag without `u`). */
  predicate EqualIgnoringCase(a: string, b: string) {
    Lower(a) == Lower(b)
  }

  /** PHP's `empty()` on a string: the empty string and `"0"`. */
  predicate IsEmptyString(s: string) {
    s == "" || s == "0"
  }

  predicate IsDigit(c: char) {
    '0' <= c <= '9'
  }

  function DigitChar(d: nat): (c: char)
    requires d < 10
    ensures IsDigit(c)
  {
    ('0' as int + d) as char
  }

  /** The decimal text PHP produces when an integer is used as a string. */
  function NatToString(n: nat): (r: string)
    ensures |r| > 0
    ensures forall i :: 0 <= i < |r| ==> IsDigit(r[i])
  {
    if n < 10 then [DigitChar(n)] else NatToString(n / 10) + [DigitChar(n % 10)]
  }

  /** Reads a string of decimal digits back as a number. */
  function DigitsValue(s: string): (v: int)
    ensures (forall i :: 0 <= i < |s| ==> IsDigit(s[i])) ==> v >= 0
  {
    if s == [] then 0 else DigitsValue(s[..|s| - 1]) * 10 + (s[|s| - 1] as int - '0' as int)
  }

  /** Reading the decimal text back gives the number: the rendering loses nothing. */
  lemma {:induction false} NatToStringRoundTrip(n: nat)
    ensures DigitsValue(NatToString(n)) == n
  {
    if n >= 10 {
      var s := NatToString(n);
      assert s[..|s| - 1] == NatToString(n / 10);
      NatToStringRoundTrip(n / 10);
    }
  }

  /** Distinct numbers have distinct decimal texts. */
  lemma NatToStringInjective(a: nat, b: nat)
    requires NatToString(a) == NatToString(b)
    ensures a == b
  {
    NatToStringRoundTrip(a);
    NatToStringRoundTrip(b);
  }

  /** `search` occurs in `s` starting at `i`. */
  predicate OccursAt(s: string, search: string, i: int) {
    0 <= i && i + |search| <= |s| && s[i..i + |search|] == search
  }

  /**
   * `str_replace($search, $replace, $subject)` for one search string: every
   * non-overlapping occurrence, scanning left to right, is replaced; an empty
   * search string leaves the subject alone.
   */
  function ReplaceAll(subject: string, search: string, replace: string): (r: string)
    ensures search == [] ==> r == subject
    ensures (forall i :: !OccursAt(subject, search, i)) ==> r == subject
    decreases |subject|
  {
    if search == [] || |subject| < |search| then subject
    else if search <= subject then
      assert OccursAt(subject, search, 0);
      replace + ReplaceAll(subject[|search|..], search, replace)
    else
      var rest := subject[1..];
      assert forall i :: OccursAt(rest, search, i) ==> OccursAt(subject, search, i + 1) by {
        forall i | OccursAt(rest, search, i) ensures OccursAt(subject, search, i + 1) {
          assert subject[i + 1..i + 1 + |search|] == rest[i..i + |search|];
        }
      }
      [subject[0]] + ReplaceAll(rest, search, replace)
  }

  /** A subject that starts with the search string has that occurrence replaced. */
  lemma ReplaceAllHit(subject: string, search: string, replace: string)
    requires search != [] && search <= subject
    ensures ReplaceAll(subject, search, replace) == replace + ReplaceAll(subject[|search|..], search, replace)
  {
  }

  /** A subject that does not start with the search string keeps its first byte. */
  lemma ReplaceAllMiss(subject: string, search: string, replace: string)
    requires search != [] && subject != [] && !OccursAt(subject, search, 0)
    ensures ReplaceAll(subject, search, replace) == [subject[0]] + ReplaceAll(subject[1..], search, replace)
  {
  }

  /** No occurrence starts in the first `n` bytes of `s`. */
  predicate NoneBefore(s: string, search: string, n: int) {
    forall i :: 0 <= i < n ==> !OccursAt(s, search, i)
  }

  /** Dropping the first byte keeps the absence of occurrences, one place earlier. */
  lemma NoneBeforeTail(s: string, search: string, n: int)
    requires s != [] && NoneBefore(s, search, n)
    ensures NoneBefore(s[1..], search, n - 1)
  {
    forall i | 0 <= i < n - 1 ensures !OccursAt(s[1..], search, i) {
      if OccursAt(s[1..], search, i) {
        assert s[i + 1..i + 1 + |search|] == s[1..][i..i + |search|];
        assert OccursAt(s, search, i + 1);
      }
    }
  }

  /** Bytes where no occurrence starts are kept as they are. */
  lemma {:induction false} ReplaceAllKeeps(s: string, search: string, replace: string, n: nat)
    requires search != [] && n <= |s| && NoneBefore(s, search, n)
    ensures ReplaceAll(s, search, replace) == s[..n] + ReplaceAll(s[n..], search, replace)
    decreases n
  {
    if n == 0 {
      assert s[..0] + ReplaceAll(s[0..], search, replace) == ReplaceAll(s, search, replace);
    } else {
      ReplaceAllMiss(s, search, replace);
      NoneBeforeTail(s, search, n);
      ReplaceAllKeeps(s[1..], search, replace, n - 1);
      assert s[1..][n - 1..] == s[n..];
      KeptStep(s, n, ReplaceAll(s, search, replace), ReplaceAll(s[1..], search, replace),
               ReplaceAll(s[n..], search, replace));
    }
  }

  /** A kept first byte in front of a kept prefix of the rest. */
  lemma KeptStep(s: string, n: nat, r: string, r1: string, tail: string)
    requires 0 < n <= |s| && r == [s[0]] + r1 && r1 == s[1..][..n - 1] + tail
    ensures r == s[..n] + tail
  {
    assert [s[0]] + s[1..][..n - 1] == s[..n];
  }

  /**
   * An occurrence of the search string is replaced, everything before it is
   * kept when no occurrence starts there, and the scan goes on after it.
   */
  lemma ReplaceAllAround(a: string, search: string, b: string, replace: string)
    requires search != []
    requires NoneBefore(a + search + b, search, |a|)
    ensures ReplaceAll(a + search + b, search, replace) == a + replace + ReplaceAll(b, search, replace)
  {
    var subject := a + search + b;
    ReplaceAllKeeps(subject, search, replace, |a|);
    assert subject[..|a|] == a;
    assert subject[|a|..] == search + b;
    ReplaceAllHit(search + b, search, replace);
    assert (search + b)[|search|..] == b;
    Joined(ReplaceAll(subject, search, replace), a, ReplaceAll(search + b, search, replace), replace,
           ReplaceAll(b, search, replace));
  }

  lemma Joined(r: string, a: string, r1: string, replace: string, tail: string)
    requires r == a + r1 && r1 == replace + tail
    ensures r == a + replace + tail
  {
  }

  /** With the only occurrence at `|a|`, none starts in `b`. */
  lemma NoneAfter(a: string, search: string, b: string)
    requires search != []
    requires forall i :: OccursAt(a + search + b, search, i) ==> i == |a|
    ensures forall j :: !OccursAt(b, search, j)
  {
    var subject := a + search + b;
    forall j ensures !OccursAt(b, search, j) {
      if OccursAt(b, search, j) {
        assert subject[|a| + |search| + j..|a| + |search| + j + |search|] == b[j..j + |search|];
        assert OccursAt(subject, search, |a| + |search| + j);
      }
    }
  }

  /** A search string that occurs exactly once is replaced there and nowhere else. */
  lemma ReplaceAllOnce(a: string, search: string, b: string, replace: string)
    requires search != []
    requires forall i :: OccursAt(a + search + b, search, i) ==> i == |a|
    ensures ReplaceAll(a + search + b, search, replace) == a + replace + b
  {
    assert NoneBefore(a + search + b, search, |a|);
    ReplaceAllAround(a, search, b, replace);
    NoneAfter(a, search, b);
  }
}
