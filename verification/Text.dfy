/**
 Strings as Rust has them: sequences of Unicode scalar values. Trimming, ASCII case, prefixes
 and the order of keys in sorted maps.
 */
module Text {
  import opened Wrappers

  /** char::is_whitespace. */
  predicate IsWhitespace(c: char) {
    var n := c as int;
    || 0x09 <= n <= 0x0D || n == 0x20 || n == 0x85 || n == 0xA0 || n == 0x1680
    || 0x2000 <= n <= 0x200A || n == 0x2028 || n == 0x2029 || n == 0x202F || n == 0x205F || n == 0x3000
  }

  predicate IsAlphanumeric(c: char) {
    '0' <= c <= '9' || 'a' <= c <= 'z' || 'A' <= c <= 'Z'
  }

  function TrimStart(s: string): string {
    if s != "" && IsWhitespace(s[0]) then TrimStart(s[1..]) else s
  }

  function TrimEnd(s: string): string {
    if s != "" && IsWhitespace(s[|s| - 1]) then TrimEnd(s[..|s| - 1]) else s
  }

  lemma {:induction false} TrimStartDropsWhitespace(s: string)
    ensures var t := TrimStart(s);
            && |t| <= |s| && t == s[|s| - |t|..]
            && Blank(s[..|s| - |t|])
            && (t == "" || !IsWhitespace(t[0]))
  {
    if s != "" && IsWhitespace(s[0]) {
      TrimStartDropsWhitespace(s[1..]);
      var n := |s| - |TrimStart(s)|;
      assert s[..n] == [s[0]] + s[1..][..n - 1];
    }
  }

  lemma {:induction false} TrimEndDropsWhitespace(s: string)
    ensures var t := TrimEnd(s);
            && t <= s
            && Blank(s[|t|..])
            && (t == "" || !IsWhitespace(t[|t| - 1]))
  {
    if s != "" && IsWhitespace(s[|s| - 1]) {
      TrimEndDropsWhitespace(s[..|s| - 1]);
      var n := |TrimEnd(s)|;
      assert s[n..] == s[..|s| - 1][n..] + [s[|s| - 1]];
    }
  }

  function Trim(s: string): string {
    TrimEnd(TrimStart(s))
  }

  predicate Blank(s: string) {
    forall i :: 0 <= i < |s| ==> IsWhitespace(s[i])
  }

  predicate Trimmed(s: string) {
    s == "" || (!IsWhitespace(s[0]) && !IsWhitespace(s[|s| - 1]))
  }

  lemma TrimIsMiddle(s: string)
    ensures exists i :: 0 <= i <= |s| - |Trim(s)| && IsMiddle(s, Trim(s), i)
  {
    TrimStartDropsWhitespace(s);
    TrimEndDropsWhitespace(TrimStart(s));
    var t := TrimStart(s);
    var i := |s| - |t|;
    assert s[i..i + |Trim(s)|] == Trim(s);
    assert s[i + |Trim(s)|..] == t[|Trim(s)|..];
    assert IsMiddle(s, Trim(s), i);
  }

  /** From place i on s reads t; what stands before and after it is white space. */
  predicate IsMiddle(s: string, t: string, i: nat)
    requires i + |t| <= |s|
  {
    s[i..i + |t|] == t && Blank(s[..i]) && Blank(s[i + |t|..])
  }

  lemma TrimIsTrimmed(s: string)
    ensures Trimmed(Trim(s))
    ensures Trim(s) == "" <==> Blank(s)
    ensures Trimmed(s) ==> Trim(s) == s
    ensures exists i :: 0 <= i <= |s| - |Trim(s)| && IsMiddle(s, Trim(s), i)
  {
    TrimStartDropsWhitespace(s);
    TrimEndDropsWhitespace(TrimStart(s));
    TrimIsMiddle(s);
  }

  function StripPrefix(s: string, prefix: string): (rest: string)
    requires prefix <= s
    ensures prefix + rest == s
  {
    s[|prefix|..]
  }

  predicate EndsWith(s: string, suffix: string) {
    |suffix| <= |s| && s[|s| - |suffix|..] == suffix
  }

  function AsciiLower(c: char): char {
    if 'A' <= c <= 'Z' then (c as int + 32) as char else c
  }

  function Lower(s: string): (t: string)
    ensures |t| == |s|
  {
    seq(|s|, i requires 0 <= i < |s| => AsciiLower(s[i]))
  }

  /** str::split_once: the text before and after the first occurrence. */
  function SplitOnce(s: string, separator: string): (r: Option<(string, string)>)
    ensures r.Some? ==> s == r.value.0 + separator + r.value.1
  {
    if separator <= s then Some(("", s[|separator|..]))
    else if s == "" then None
    else
      match SplitOnce(s[1..], separator)
      case None => None
      case Some((before, after)) => Some(([s[0]] + before, after))
  }

  /** The separator stands after `before`, and nowhere earlier. */
  ghost predicate FirstAfter(s: string, separator: string, before: string, after: string) {
    && s == before + separator + after
    && forall k :: 0 <= k < |before| ==> !(separator <= s[k..])
  }

  lemma {:induction false} SplitIsFirst(s: string, separator: string)
    ensures var r := SplitOnce(s, separator); r.Some? ==> FirstAfter(s, separator, r.value.0, r.value.1)
  {
    var r := SplitOnce(s, separator);
    if r.Some? && !(separator <= s) {
      SplitIsFirst(s[1..], separator);
      var before := r.value.0;
      forall k | 0 <= k < |before| ensures !(separator <= s[k..]) {
        if k > 0 {
          assert s[1..][k - 1..] == s[k..];
          assert !(separator <= s[1..][k - 1..]);
        } else {
          assert s[0..] == s;
        }
      }
    }
  }

  lemma {:induction false} FirstIsSplit(s: string, separator: string, before: string, after: string)
    requires FirstAfter(s, separator, before, after)
    ensures SplitOnce(s, separator) == Some((before, after))
    decreases |before|
  {
    if before == "" {
      assert s == separator + after;
    } else {
      assert s[0..] == s;
      assert s[1..] == before[1..] + separator + after;
      forall k | 0 <= k < |before[1..]| ensures !(separator <= s[1..][k..]) {
        assert s[1..][k..] == s[k + 1..];
      }
      FirstIsSplit(s[1..], separator, before[1..], after);
      assert [before[0]] + before[1..] == before;
    }
  }

  lemma SplitOnceIff(s: string, separator: string, before: string, after: string)
    ensures SplitOnce(s, separator) == Some((before, after)) <==> FirstAfter(s, separator, before, after)
  {
    SplitIsFirst(s, separator);
    if FirstAfter(s, separator, before, after) {
      FirstIsSplit(s, separator, before, after);
    }
  }

  lemma {:induction false} SplitAtFirst(before: string, separator: string, after: string)
    requires separator != "" && separator[0] !in before
    ensures SplitOnce(before + separator + after, separator) == Some((before, after))
  {
    var s := before + separator + after;
    if before == "" {
      assert s == separator + after;
    } else {
      assert s[0] == before[0] != separator[0];
      assert s[1..] == before[1..] + separator + after;
      SplitAtFirst(before[1..], separator, after);
      assert [before[0]] + before[1..] == before;
    }
  }

  const UPPER_LETTERS := "ABCDEFGHIJKLMNOPQRSTUVWXYZ"
  const LOWER_LETTERS := "abcdefghijklmnopqrstuvwxyz"

  /** Only the 26 capital letters change, each to its small letter. */
  lemma LowerChanges(c: char, k: nat)
    requires k < 26
    ensures c == UPPER_LETTERS[k] ==> AsciiLower(c) == LOWER_LETTERS[k]
    ensures c !in UPPER_LETTERS ==> AsciiLower(c) == c
  {
    assert forall j :: 0 <= j < 26 ==> UPPER_LETTERS[j] as int == 'A' as int + j && LOWER_LETTERS[j] as int == 'a' as int + j;
    if 'A' <= c <= 'Z' {
      assert UPPER_LETTERS[c as int - 'A' as int] == c;
    }
  }

  lemma LowerIsIdempotent(s: string)
    ensures Lower(Lower(s)) == Lower(s)
  {
  }

  // ----- the order of strings: by scalar value, which is the order of their UTF-8 bytes

  predicate Less(a: string, b: string) {
    if b == "" then false
    else if a == "" then true
    else a[0] < b[0] || (a[0] == b[0] && Less(a[1..], b[1..]))
  }

  lemma {:induction false} LessIsStrictOrder(a: string, b: string, c: string)
    ensures !Less(a, a)
    ensures Less(a, b) && Less(b, c) ==> Less(a, c)
    ensures Less(a, b) || a == b || Less(b, a)
    decreases |a| + |b| + |c|
  {
    if a != "" {
      LessIsStrictOrder(a[1..], if b == "" then "" else b[1..], if c == "" then "" else c[1..]);
      if b != "" && a[0] == b[0] {
        assert a == [a[0]] + a[1..] && b == [b[0]] + b[1..];
      }
    }
  }

  /** At the first place where they differ a has the smaller character, or a ends there and b does not. */
  ghost predicate SmallerAt(a: string, b: string, k: nat) {
    && k <= |a| && k < |b| && a[..k] == b[..k]
    && (k == |a| || a[k] < b[k])
  }

  lemma {:induction false} LessHasPlace(a: string, b: string)
    requires Less(a, b)
    ensures exists k: nat :: SmallerAt(a, b, k)
    decreases |a|
  {
    if a != "" && a[0] == b[0] {
      LessHasPlace(a[1..], b[1..]);
      var k: nat :| SmallerAt(a[1..], b[1..], k);
      assert a[..k + 1] == [a[0]] + a[1..][..k] && b[..k + 1] == [b[0]] + b[1..][..k];
      assert SmallerAt(a, b, k + 1);
    } else {
      assert SmallerAt(a, b, 0);
    }
  }

  lemma {:induction false} PlaceMeansLess(a: string, b: string, k: nat)
    requires SmallerAt(a, b, k)
    ensures Less(a, b)
  {
    if k > 0 {
      assert a[0] == a[..k][0] == b[..k][0] == b[0];
      assert a[1..][..k - 1] == a[..k][1..] && b[1..][..k - 1] == b[..k][1..];
      PlaceMeansLess(a[1..], b[1..], k - 1);
    }
  }

  /** The order is the lexicographic one. */
  lemma LessIff(a: string, b: string)
    ensures Less(a, b) <==> exists k: nat :: SmallerAt(a, b, k)
  {
    if Less(a, b) {
      LessHasPlace(a, b);
    }
    if k: nat :| SmallerAt(a, b, k) {
      PlaceMeansLess(a, b, k);
    }
  }
}
