// The java.lang.String and StringUtils operations the services rely on,
// restricted to ASCII: trim, toLowerCase, isEmpty/hasText, startsWith,
// case-insensitive containment, split at the first separator, and
// decimal rendering of numbers.
module Text {
  import opened Common

  /** `String.trim` strips every character at or below U+0020. */
  predicate Blank(c: char)
  {
    c <= ' '
  }

  predicate AllBlank(s: string)
  {
    forall k :: 0 <= k < |s| ==> Blank(s[k])
  }

  /** No blank character at either end. */
  predicate IsTrimmed(s: string)
  {
    s == [] || (!Blank(s[0]) && !Blank(s[|s| - 1]))
  }

  /** Length of the leading run of blanks. */
  function LeadingBlanks(s: string): (n: nat)
    ensures n <= |s|
    ensures AllBlank(s[..n])
    ensures n == |s| || !Blank(s[n])
  {
    if s == [] || !Blank(s[0]) then 0
    else
      var m := LeadingBlanks(s[1..]);
      assert s[..1 + m] == [s[0]] + s[1..][..m];
      1 + m
  }

  /** Length of the trailing run of blanks. */
  function TrailingBlanks(s: string): (n: nat)
    ensures n <= |s|
    ensures AllBlank(s[|s| - n..])
    ensures n == |s| || !Blank(s[|s| - n - 1])
  {
    if s == [] || !Blank(s[|s| - 1]) then 0
    else
      var init := s[..|s| - 1];
      var m := TrailingBlanks(init);
      assert s[|s| - (1 + m)..] == init[|init| - m..] + [s[|s| - 1]];
      1 + m
  }

  /**
   * `String.trim`: the result is trimmed and is what remains of `s` once a
   * blank prefix and a blank suffix are removed.
   */
  function Trim(s: string): (r: string)
    ensures IsTrimmed(r)
    ensures |r| <= |s| - LeadingBlanks(s)
    ensures r == s[LeadingBlanks(s)..LeadingBlanks(s) + |r|]
    ensures AllBlank(s[LeadingBlanks(s) + |r|..])
  {
    var i := LeadingBlanks(s);
    var t := s[i..];
    var j := TrailingBlanks(t);
    var r := t[..|t| - j];
    assert r == s[i..i + |r|];
    assert t[|t| - j..] == s[i + |r|..];
    assert r != [] ==> r[0] == s[i] && r[|r| - 1] == t[|t| - j - 1];
    r
  }

  /** Trimming a trimmed string changes nothing. */
  lemma TrimTrimmed(s: string)
    requires IsTrimmed(s)
    ensures Trim(s) == s
  {
    assert LeadingBlanks(s) == 0;
    assert TrailingBlanks(s[0..]) == 0 by { assert s[0..] == s; }
  }

  lemma {:induction false} TrimIdempotent(s: string)
    ensures Trim(Trim(s)) == Trim(s)
  {
    TrimTrimmed(Trim(s));
  }

  predicate IsUpper(c: char)
  {
    'A' <= c <= 'Z'
  }

  /** `Character.toLowerCase` on ASCII. */
  function ToLowerChar(c: char): (d: char)
    ensures !IsUpper(d)
    ensures IsUpper(c) ==> d as int == c as int + 32
    ensures !IsUpper(c) ==> d == c
  {
    if IsUpper(c) then (c as int + 32) as char else c
  }

  /** `String.toLowerCase` on ASCII. */
  function ToLower(s: string): (r: string)
    ensures |r| == |s|
    ensures forall k :: 0 <= k < |s| ==> r[k] == ToLowerChar(s[k])
  {
    seq(|s|, k requires 0 <= k < |s| => ToLowerChar(s[k]))
  }

  predicate IsLower(s: string)
  {
    forall k :: 0 <= k < |s| ==> !IsUpper(s[k])
  }

  lemma LowerIsLower(s: string)
    ensures IsLower(ToLower(s))
  {
  }

  /** Lower-casing a lower-case string changes nothing. */
  lemma LowerOfLower(s: string)
    requires IsLower(s)
    ensures ToLower(s) == s
  {
  }

  /** Lower-casing never turns a blank into a non-blank or back. */
  lemma LowerKeepsTrimmed(s: string)
    requires IsTrimmed(s)
    ensures IsTrimmed(ToLower(s))
  {
  }

  /** `Character.isWhitespace` on ASCII: TAB..CR, FS..US and SPACE. */
  predicate IsWhitespace(c: char)
  {
    c == ' ' || ('\t' <= c <= '\r') || (28 <= c as int <= 31)
  }

  /** `StringUtils.hasText`: non-null with at least one non-whitespace character. */
  predicate HasText(s: Option<string>)
  {
    s.Some? && exists k :: 0 <= k < |s.value| && !IsWhitespace(s.value[k])
  }

  predicate StartsWith(s: string, prefix: string)
  {
    |prefix| <= |s| && s[..|prefix|] == prefix
  }

  /** `s.contains(t)`. */
  predicate Contains(s: string, t: string)
  {
    StartsWith(s, t) || (s != [] && Contains(s[1..], t))
  }

  /** `LOWER(s) LIKE LOWER('%' || t || '%')` for a term without wildcards. */
  predicate ContainsIgnoreCase(s: string, t: string)
  {
    Contains(ToLower(s), ToLower(t))
  }

  /** Index of the first occurrence of `c`, or `|s|` when there is none. */
  function IndexOf(s: string, c: char): (i: nat)
    ensures i <= |s|
    ensures c !in s[..i]
    ensures i < |s| ==> s[i] == c
  {
    if s == [] || s[0] == c then 0
    else
      var j := IndexOf(s[1..], c);
      assert s[..1 + j] == [s[0]] + s[1..][..j];
      1 + j
  }

  /** `s.split(" ", 2)`: the text before the first space and, if any, the rest. */
  function SplitFirstSpace(s: string): (parts: (string, Option<string>))
    ensures ' ' !in parts.0
    ensures parts.1.None? <==> ' ' !in s
    ensures parts.1.None? ==> parts.0 == s
    ensures parts.1.Some? ==> s == parts.0 + " " + parts.1.value
  {
    var i := IndexOf(s, ' ');
    if i == |s| then
      assert s[..i] == s;
      (s, None)
    else
      assert s == s[..i] + " " + s[i + 1..];
      (s[..i], Some(s[i + 1..]))
  }

  predicate AllChar(s: string, c: char)
  {
    forall k :: 0 <= k < |s| ==> s[k] == c
  }

  /**
   * `email.split("@")[0]`. With limit 0, Java drops the trailing empty
   * pieces, so a non-empty string made only of '@' yields no piece at all
   * and indexing it fails; otherwise the first piece is the text before the
   * first '@' (the whole string when there is none).
   */
  function BeforeFirstAt(email: string): (r: Result<string>)
    ensures r.Err? <==> email != [] && AllChar(email, '@')
    ensures r.Err? ==> r.error == IndexOutOfBounds
    ensures r.Ok? ==> '@' !in r.value && StartsWith(email, r.value)
    ensures r.Ok? && '@' in email ==> email[|r.value|] == '@'
  {
    var i := IndexOf(email, '@');
    if email != [] && AllChar(email, '@') then Err(IndexOutOfBounds)
    else Ok(email[..i])
  }

  /** Decimal digits of a natural number, most significant first. */
  function NatToString(n: nat): (s: string)
    ensures s != []
    ensures |s| == 1 <==> n < 10
    decreases n
  {
    if n < 10 then [DigitChar(n)] else NatToString(n / 10) + [DigitChar(n % 10)]
  }

  function DigitChar(d: nat): (c: char)
    requires d < 10
    ensures '0' <= c <= '9'
  {
    ('0' as int + d) as char
  }

  /** `String.valueOf` of an integer. */
  function IntToString(n: int): string
  {
    if n < 0 then "-" + NatToString(-n) else NatToString(n)
  }

  /** Decimal rendering is injective: different counters give different suffixes. */
  lemma {:induction false} NatToStringInjective(a: nat, b: nat)
    requires NatToString(a) == NatToString(b)
    ensures a == b
    decreases a
  {
    var sa, sb := NatToString(a), NatToString(b);
    if a < 10 {
      assert b < 10;
      assert DigitChar(a) == sa[0] == DigitChar(b);
    } else {
      assert sa[..|sa| - 1] == NatToString(a / 10);
      assert sb[..|sb| - 1] == NatToString(b / 10);
      NatToStringInjective(a / 10, b / 10);
      assert DigitChar(a % 10) == sa[|sa| - 1] == DigitChar(b % 10);
    }
  }
}
