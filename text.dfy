/** String helpers with Python's meaning: str.isspace, str.strip, str.lower,
    str.isdigit, int() of a digit string, slicing a prefix, `in` on strings
    and str.join. */
module Text {

  /** Python's str.isspace for a single character. */
  predicate IsSpace(c: char) {
    ('\t' <= c <= '\r') || ('\U{001C}' <= c <= '\U{001F}') || c == ' '
    || c == '\U{0085}' || c == '\U{00A0}' || c == '\U{1680}'
    || ('\U{2000}' <= c <= '\U{200A}') || c == '\U{2028}' || c == '\U{2029}'
    || c == '\U{202F}' || c == '\U{205F}' || c == '\U{3000}'
  }

  /** True when `s.strip()` is the empty string. */
  predicate Blank(s: string) {
    forall i :: 0 <= i < |s| ==> IsSpace(s[i])
  }

  /** str.lstrip(): drops the leading whitespace. */
  function TrimStart(s: string): (r: string)
    ensures |r| <= |s| && r == s[|s| - |r|..]
    ensures Blank(s[..|s| - |r|])
    ensures r != [] ==> !IsSpace(r[0])
    decreases |s|
  {
    if s != [] && IsSpace(s[0]) then
      var r := TrimStart(s[1..]);
      BlankFront(s, |s| - |r|);
      r
    else s
  }

  /** A blank stretch after a leading space is a blank prefix. */
  lemma BlankFront(s: string, k: nat)
    requires 1 <= k <= |s| && IsSpace(s[0]) && Blank(s[1..][..k - 1])
    ensures Blank(s[..k])
  {
    forall i | 0 < i < k ensures IsSpace(s[..k][i]) {
      assert s[..k][i] == s[1..][..k - 1][i - 1];
    }
  }

  /** A blank stretch before a trailing space is a blank suffix. */
  lemma BlankBack(s: string, k: nat)
    requires k < |s| && IsSpace(s[|s| - 1]) && Blank(s[..|s| - 1][k..])
    ensures Blank(s[k..])
  {
    forall i | 0 <= i < |s| - 1 - k ensures IsSpace(s[k..][i]) {
      assert s[k..][i] == s[..|s| - 1][k..][i];
    }
  }

  /** str.rstrip(): drops the trailing whitespace. */
  function TrimEnd(s: string): (r: string)
    ensures |r| <= |s| && r == s[..|r|]
    ensures Blank(s[|r|..])
    ensures r != [] ==> !IsSpace(r[|r| - 1])
    decreases |s|
  {
    if s != [] && IsSpace(s[|s| - 1]) then
      var r := TrimEnd(s[..|s| - 1]);
      BlankBack(s, |r|);
      r
    else s
  }

  /** str.strip(): the string without leading or trailing whitespace; it is
      empty exactly when the input is blank. */
  function Strip(s: string): (r: string)
    ensures |r| <= |s|
    ensures r != [] ==> !IsSpace(r[0]) && !IsSpace(r[|r| - 1])
    ensures r == [] <==> Blank(s)
  {
    StripParts(s);
    TrimEnd(TrimStart(s))
  }

  /** str.strip() removes exactly the surrounding whitespace: its result is
      the stretch of s between a blank prefix and a blank suffix, and
      neither of its ends is whitespace. */
  lemma StripRemovesSurroundingSpace(s: string)
    ensures exists a, b :: 0 <= a <= b <= |s| && Strip(s) == s[a..b] && Blank(s[..a]) && Blank(s[b..])
    ensures Strip(s) != [] ==> !IsSpace(Strip(s)[0]) && !IsSpace(Strip(s)[|Strip(s)| - 1])
  {
    var t := TrimStart(s);
    var r := TrimEnd(t);
    var a := |s| - |t|;
    SliceOfSuffix(s, a, |r|);
    assert Strip(s) == r == s[a..a + |r|];
    assert Blank(s[..a]) && Blank(s[a + |r|..]);
  }

  /** Slicing a suffix is slicing the whole. */
  lemma SliceOfSuffix(s: string, a: nat, m: nat)
    requires a + m <= |s|
    ensures s[a..][..m] == s[a..a + m] && s[a..][m..] == s[a + m..]
  {
  }

  lemma StripParts(s: string)
    ensures TrimEnd(TrimStart(s)) == [] <==> Blank(s)
    ensures TrimEnd(TrimStart(s)) != [] ==> !IsSpace(TrimEnd(TrimStart(s))[0])
  {
    var t := TrimStart(s);
    var r := TrimEnd(t);
    if r == [] {
      var k := |s| - |t|;
      assert t[0..] == t;
      BlankAround(s, k);
    } else {
      assert r[0] == t[0];
    }
  }

  /** A string blank before and after some index is blank. */
  lemma BlankAround(s: string, k: nat)
    requires k <= |s| && Blank(s[..k]) && Blank(s[k..])
    ensures Blank(s)
  {
    BlankConcat(s[..k], s[k..]);
    assert s[..k] + s[k..] == s;
  }

  lemma BlankConcat(a: string, b: string)
    requires Blank(a) && Blank(b)
    ensures Blank(a + b)
  {
    forall i | 0 <= i < |a + b| ensures IsSpace((a + b)[i]) {
      if i < |a| { assert (a + b)[i] == a[i]; } else { assert (a + b)[i] == b[i - |a|]; }
    }
  }

  /** Python's str.lower() on one character (ASCII letters only). */
  function LowerChar(c: char): char {
    if 'A' <= c <= 'Z' then (c as int + 32) as char else c
  }

  /** str.lower(): same length, every character lower-cased. */
  function Lower(s: string): (r: string)
    ensures |r| == |s|
    ensures forall i :: 0 <= i < |s| ==> r[i] == LowerChar(s[i])
  {
    seq(|s|, i requires 0 <= i < |s| => LowerChar(s[i]))
  }

  /** Python's str.isdigit for one character (ASCII digits). */
  predicate IsDigit(c: char) {
    '0' <= c <= '9'
  }

  /** str.isdigit(): at least one character, all of them digits. */
  predicate AllDigits(s: string) {
    |s| > 0 && forall i :: 0 <= i < |s| ==> IsDigit(s[i])
  }

  function Pow10(n: nat): (r: nat)
    ensures r >= 1
  {
    if n == 0 then 1 else 10 * Pow10(n - 1)
  }

  /** int(s) for a string of digits: a number with at most |s| digits. */
  function DigitsValue(s: string): (r: nat)
    requires forall i :: 0 <= i < |s| ==> IsDigit(s[i])
    ensures r < Pow10(|s|)
  {
    if s == [] then 0
    else
      var d := s[|s| - 1] as int - '0' as int;
      var p := DigitsValue(s[..|s| - 1]);
      assert IsDigit(s[|s| - 1]) && 0 <= d <= 9;
      assert p * 10 + d < Pow10(|s|) by {
        assert p + 1 <= Pow10(|s| - 1);
        assert (p + 1) * 10 <= Pow10(|s| - 1) * 10;
      }
      p * 10 + d
  }

  /** Python's s[:n] for n >= 0. */
  function Prefix(s: string, n: nat): (r: string)
    ensures |r| == if n < |s| then n else |s|
    ensures r == s[..|r|]
  {
    if n < |s| then s[..n] else s
  }

  /** `needle` occurs in `hay` starting at index `i`. */
  predicate OccursAt(hay: string, needle: string, i: int) {
    0 <= i && i + |needle| <= |hay| && hay[i..i + |needle|] == needle
  }

  /** Python's `needle in hay` on strings. */
  predicate Contains(hay: string, needle: string) {
    exists i | 0 <= i && i + |needle| <= |hay| :: OccursAt(hay, needle, i)
  }

  /** An occurrence in a part is an occurrence in any string around it. */
  lemma ContainsWithin(pre: string, mid: string, post: string, needle: string)
    requires Contains(mid, needle)
    ensures Contains(pre + mid + post, needle)
  {
    var i :| 0 <= i && i + |needle| <= |mid| && OccursAt(mid, needle, i);
    var h, j, n := pre + mid + post, |pre| + i, |needle|;
    assert h[j..j + n] == mid[i..i + n];
    assert OccursAt(h, needle, j);
  }

  /** Python's sep.join(parts). */
  function Join(sep: string, parts: seq<string>): string {
    if parts == [] then ""
    else if |parts| == 1 then parts[0]
    else parts[0] + sep + Join(sep, parts[1..])
  }

  /** Every part of a join sits in the joined string, so a needle found in
      any one part is found in the whole. */
  lemma {:induction false} JoinContainsPart(sep: string, parts: seq<string>, k: nat, needle: string)
    requires k < |parts| && Contains(parts[k], needle)
    ensures Contains(Join(sep, parts), needle)
  {
    if |parts| == 1 {
    } else if k == 0 {
      ContainsWithin("", parts[0], sep + Join(sep, parts[1..]), needle);
      assert "" + parts[0] + (sep + Join(sep, parts[1..])) == Join(sep, parts);
    } else {
      JoinContainsPart(sep, parts[1..], k - 1, needle);
      ContainsWithin(parts[0] + sep, Join(sep, parts[1..]), "", needle);
      assert parts[0] + sep + Join(sep, parts[1..]) + "" == Join(sep, parts);
    }
  }

  /** Every string contains the empty string. */
  lemma ContainsEmpty(hay: string)
    ensures Contains(hay, "")
  {
    assert OccursAt(hay, "", 0);
  }
  /** The converse for a separator the needle cannot overlap: a non-empty
      needle sharing no character with a non-empty separator occurs in the
      join only inside one of the parts. */
  lemma {:induction false} JoinOccurrenceInPart(sep: string, parts: seq<string>, needle: string)
    requires sep != [] && needle != []
    requires forall i :: 0 <= i < |needle| ==> needle[i] !in sep
    requires Contains(Join(sep, parts), needle)
    ensures exists k :: 0 <= k < |parts| && Contains(parts[k], needle)
  {
    if |parts| == 1 {
      assert Contains(parts[0], needle);
    } else if |parts| >= 2 {
      var p0, rest := parts[0], Join(sep, parts[1..]);
      var h, n := Join(sep, parts), |needle|;
      assert h == p0 + sep + rest;
      var i :| 0 <= i && i + n <= |h| && OccursAt(h, needle, i);
      if i + n <= |p0| {
        assert h[i..i + n] == p0[i..i + n];
        assert OccursAt(p0, needle, i);
      } else if i >= |p0| + |sep| {
        var j := i - |p0| - |sep|;
        assert h[i..i + n] == rest[j..j + n];
        assert OccursAt(rest, needle, j);
        JoinOccurrenceInPart(sep, parts[1..], needle);
        var k :| 0 <= k < |parts[1..]| && Contains(parts[1..][k], needle);
        assert parts[k + 1] == parts[1..][k];
      } else {
        OverlapMeetsSeparator(p0, sep, rest, needle, i);
      }
    }
  }

  /** For a separator a non-empty needle shares no character with, the
      needle occurs in the join exactly when it occurs in one of the
      parts. */
  lemma JoinContainsIff(sep: string, parts: seq<string>, needle: string)
    requires sep != [] && needle != []
    requires forall i :: 0 <= i < |needle| ==> needle[i] !in sep
    ensures Contains(Join(sep, parts), needle) <==> exists k :: 0 <= k < |parts| && Contains(parts[k], needle)
  {
    if Contains(Join(sep, parts), needle) {
      JoinOccurrenceInPart(sep, parts, needle);
    }
    if exists k :: 0 <= k < |parts| && Contains(parts[k], needle) {
      var k :| 0 <= k < |parts| && Contains(parts[k], needle);
      JoinContainsPart(sep, parts, k, needle);
    }
  }

  /** An occurrence that starts before the separator and ends after its
      start shares a character with it. */
  lemma OverlapMeetsSeparator(p0: string, sep: string, rest: string, needle: string, i: int)
    requires sep != [] && needle != []
    requires OccursAt(p0 + sep + rest, needle, i)
    requires i + |needle| > |p0| && i < |p0| + |sep|
    ensures exists j :: 0 <= j < |needle| && needle[j] in sep
  {
    var h, n := p0 + sep + rest, |needle|;
    var t := if i < |p0| then |p0| else i;
    assert h[t] == needle[t - i] by { assert h[i..i + n][t - i] == h[t]; }
    assert h[t] == sep[t - |p0|];
  }
}
