/** Matching a host and port against one entry of the NO_PROXY environment variable. */
module ProxyBypass {
  import opened Decimal
  import opened Text
  import opened Wrappers

  const U16_MAX := 65535

  /** str::parse::<u16>: an optional plus sign and at least one digit; leading zeros are fine. */
  function ParseU16(s: string): Option<nat> {
    var digits := if s != "" && s[0] == '+' then s[1..] else s;
    if digits != "" && AllDigits(digits) && Value(digits) <= U16_MAX then Some(Value(digits)) else None
  }

  /** str::rsplit_once on one character: the text before and after its last occurrence. */
  function RSplitOnce(s: string, c: char): (r: Option<(string, string)>)
    ensures r.None? <==> c !in s
    ensures r.Some? ==> s == r.value.0 + [c] + r.value.1 && c !in r.value.1
  {
    if s == "" then None
    else if s[|s| - 1] == c then Some((s[..|s| - 1], ""))
    else
      match RSplitOnce(s[..|s| - 1], c)
      case None => None
      case Some((before, after)) => Some((before, after + [s[|s| - 1]]))
  }

  function BracketSplit(entry: string): Option<(string, string)> {
    if entry != "" && entry[0] == '[' then SplitOnce(entry[1..], "]") else None
  }

  function SplitNoProxyEntry(entry: string): (string, Option<nat>) {
    match BracketSplit(entry)
    case Some((host, rest)) =>
      (host, if rest != "" && rest[0] == ':' then ParseU16(rest[1..]) else None)
    case None =>
      match RSplitOnce(entry, ':')
      case Some((host, port)) =>
        if ':' !in host && ParseU16(port).Some? then (host, ParseU16(port)) else (entry, None)
      case None => (entry, None)
  }

  predicate IsBracket(c: char) {
    c == '[' || c == ']'
  }

  function TrimBracketsStart(s: string): string {
    if s != "" && IsBracket(s[0]) then TrimBracketsStart(s[1..]) else s
  }

  function TrimBracketsEnd(s: string): string {
    if s != "" && IsBracket(s[|s| - 1]) then TrimBracketsEnd(s[..|s| - 1]) else s
  }

  function TrimStars(s: string): string {
    if "*." <= s then TrimStars(s[2..]) else s
  }

  function TrimDots(s: string): string {
    if "." <= s then TrimDots(s[1..]) else s
  }

  function EntryHost(host: string): string {
    Lower(TrimDots(TrimStars(TrimBracketsEnd(TrimBracketsStart(host)))))
  }

  predicate HostMatchesNoProxyEntry(host: string, entryHost: string) {
    || Lower(host) == Lower(entryHost)
    || (EndsWith(host, entryHost) && EndsWith(host[..|host| - |entryHost|], "."))
  }

  predicate NoProxyEntryMatches(host: string, port: Option<nat>, text: string) {
    var entry := Trim(text);
    if entry == "" then false
    else if entry == "*" then true
    else
      var (entryHost, entryPort) := SplitNoProxyEntry(entry);
      if entryPort.Some? && entryPort != port then false
      else
        var name := EntryHost(entryHost);
        name != "" && HostMatchesNoProxyEntry(host, name)
  }

  // ----- splitting undoes printing

  lemma PortReadsBack(p: nat)
    requires p <= U16_MAX
    ensures ParseU16(Digits(p)) == Some(p)
    ensures forall i :: 0 <= i < |Digits(p)| ==> IsDigit(Digits(p)[i])
  {
    DigitsAreDecimal(p);
  }

  lemma {:induction false} RSplitAtLast(before: string, c: char, after: string)
    requires c !in after
    ensures RSplitOnce(before + [c] + after, c) == Some((before, after))
  {
    var s := before + [c] + after;
    if after == "" {
      assert s[..|s| - 1] == before;
    } else {
      var n := |after| - 1;
      assert s[..|s| - 1] == before + [c] + after[..n] && s[|s| - 1] == after[n];
      RSplitAtLast(before, c, after[..n]);
      assert after == after[..n] + [after[n]];
    }
  }

  /** A host is taken for a bracketed address when it opens with '[' and holds a ']'. */
  predicate Bracketed(s: string) {
    s != "" && s[0] == '[' && ']' in s
  }

  lemma {:induction false} SplitOnceFinds(s: string)
    ensures SplitOnce(s, "]").Some? <==> ']' in s
    ensures SplitOnce(s, "]").Some? ==> ']' !in SplitOnce(s, "]").value.0
  {
    if s != "" && s[0] != ']' {
      SplitOnceFinds(s[1..]);
      assert s == [s[0]] + s[1..];
    }
  }

  lemma BracketSplitIff(entry: string)
    ensures BracketSplit(entry).Some? <==> Bracketed(entry)
    ensures BracketSplit(entry).Some? ==> ']' !in BracketSplit(entry).value.0
  {
    if entry != "" && entry[0] == '[' {
      SplitOnceFinds(entry[1..]);
      InAfterFirst(entry, ']');
    }
  }

  lemma InAfterFirst(s: string, c: char)
    requires s != "" && s[0] != c
    ensures c in s <==> c in s[1..]
  {
    assert s == [s[0]] + s[1..];
  }

  /** host:port splits back exactly when the host holds no colon and is not bracketed. */
  lemma HostAndPortSplitIff(host: string, p: nat)
    requires p <= U16_MAX
    ensures SplitNoProxyEntry(host + ":" + Digits(p)) == (host, Some(p)) <==> ':' !in host && !Bracketed(host)
  {
    var entry := host + ":" + Digits(p);
    PortReadsBack(p);
    BracketSplitIff(entry);
    RSplitAtLast(host, ':', Digits(p));
    assert Bracketed(entry) <==> Bracketed(host) by {
      assert host != "" ==> entry[0] == host[0];
      assert host == "" ==> entry[0] == ':';
    }
    if Bracketed(host) {
      assert BracketSplit(entry).value.0 != host;
    }
  }

  lemma BracketedEntrySplits(address: string, rest: string)
    requires ']' !in address
    ensures BracketSplit("[" + address + "]" + rest) == Some((address, rest))
  {
    assert ("[" + address + "]" + rest)[1..] == address + "]" + rest;
    SplitAtFirst(address, "]", rest);
  }

  lemma ColonAndPort(p: nat)
    requires p <= U16_MAX
    ensures var rest := ":" + Digits(p); rest != "" && rest[0] == ':' && ParseU16(rest[1..]) == Some(p)
  {
    PortReadsBack(p);
    assert (":" + Digits(p))[1..] == Digits(p);
  }

  /** The host of a bracketed entry ends before the first closing bracket. */
  lemma BracketedHost(entry: string)
    requires Bracketed(entry)
    ensures ']' !in SplitNoProxyEntry(entry).0
  {
    BracketSplitIff(entry);
  }

  /** [address]:port splits back exactly when the address holds no closing bracket. */
  lemma BracketedAndPortSplitIff(address: string, p: nat)
    requires p <= U16_MAX
    ensures SplitNoProxyEntry("[" + address + "]:" + Digits(p)) == (address, Some(p)) <==> ']' !in address
  {
    var rest := ":" + Digits(p);
    var entry := "[" + address + "]" + rest;
    assert "[" + address + "]:" + Digits(p) == entry;
    if ']' in address {
      assert entry[0] == '[' && entry[|address| + 1] == ']';
      BracketedHost(entry);
    } else {
      ColonAndPort(p);
      BracketedEntrySplits(address, rest);
    }
  }

  // ----- which hosts an entry accepts

  /** A domain, in any letter case, without what the matcher strips from an entry. */
  predicate Normal(e: string) {
    && e != "" && e != "*" && Trimmed(e)
    && ':' !in e && '[' !in e && ']' !in e
    && !("*." <= e) && !("." <= e)
  }

  datatype Form = Plain | Dotted | Starred

  function Prefix(form: Form): string {
    match form
    case Plain => ""
    case Dotted => "."
    case Starred => "*."
  }

  function EntryText(form: Form, e: string, entryPort: Option<nat>): string {
    Prefix(form) + e + if entryPort.Some? then ":" + Digits(entryPort.value) else ""
  }

  /** The domain itself in any letter case, and every host below it whose end is written alike. */
  predicate Covers(e: string, host: string) {
    Lower(host) == e || EndsWith(host, "." + e)
  }

  lemma PrefixedHasNoBrackets(form: Form, e: string)
    requires Normal(e)
    ensures var s := Prefix(form) + e; s != "" && ':' !in s && '[' !in s && ']' !in s
  {
  }

  lemma EntryWithPortSplits(form: Form, e: string, p: nat)
    requires Normal(e) && p <= U16_MAX
    ensures SplitNoProxyEntry(EntryText(form, e, Some(p))) == (Prefix(form) + e, Some(p))
  {
    var s := Prefix(form) + e;
    PrefixedHasNoBrackets(form, e);
    HostAndPortSplitIff(s, p);
    assert EntryText(form, e, Some(p)) == s + ":" + Digits(p);
  }

  lemma EntryWithoutPortSplits(form: Form, e: string)
    requires Normal(e)
    ensures SplitNoProxyEntry(EntryText(form, e, None)) == (Prefix(form) + e, None)
  {
    var s := Prefix(form) + e;
    PrefixedHasNoBrackets(form, e);
    assert EntryText(form, e, None) == s;
    BracketSplitIff(s);
  }

  lemma NothingToTrim(s: string)
    requires s != "" && '[' !in s && ']' !in s
    ensures TrimBracketsEnd(TrimBracketsStart(s)) == s
  {
    assert s[0] in s && s[|s| - 1] in s;
  }

  lemma StarsAndDotsDropped(form: Form, e: string)
    requires e != "" && !("*." <= e) && !("." <= e)
    ensures TrimDots(TrimStars(Prefix(form) + e)) == e
  {
    var s := Prefix(form) + e;
    match form
    case Plain =>
      assert s == e;
    case Dotted =>
      assert s[0] == '.' && s[1..] == e;
      assert "*."[0] == '*';
      assert TrimStars(s) == s;
      assert TrimDots(s) == TrimDots(e);
    case Starred =>
      assert s[..2] == "*." && s[2..] == e;
      assert TrimStars(s) == TrimStars(e) == e;
  }

  lemma PrefixIsDropped(form: Form, e: string)
    requires Normal(e)
    ensures EntryHost(Prefix(form) + e) == Lower(e)
  {
    PrefixedHasNoBrackets(form, e);
    NothingToTrim(Prefix(form) + e);
    StarsAndDotsDropped(form, e);
  }

  lemma SuffixAfterDot(e: string, host: string)
    requires e != ""
    ensures EndsWith(host, "." + e) <==> EndsWith(host, e) && EndsWith(host[..|host| - |e|], ".")
  {
    if EndsWith(host, "." + e) {
      assert host[|host| - |e|..] == host[|host| - |e| - 1..][1..];
      assert host[|host| - |e| - 1] == ("." + e)[0];
    }
  }

  lemma MatchAfterSplit(text: string, host: string, port: Option<nat>, entryHost: string, entryPort: Option<nat>)
    requires Trim(text) != "" && Trim(text) != "*" && SplitNoProxyEntry(Trim(text)) == (entryHost, entryPort)
    requires EntryHost(entryHost) != ""
    ensures NoProxyEntryMatches(host, port, text) <==>
              (entryPort.None? || entryPort == port) && HostMatchesNoProxyEntry(host, EntryHost(entryHost))
  {
  }

  lemma MatchIsCover(name: string, host: string)
    requires name != "" && Lower(name) == name
    ensures HostMatchesNoProxyEntry(host, name) <==> Covers(name, host)
  {
    SuffixAfterDot(name, host);
  }

  lemma NotBlankNotStar(form: Form, e: string, entryPort: Option<nat>)
    requires Normal(e)
    ensures EntryText(form, e, entryPort) != "" && EntryText(form, e, entryPort) != "*"
  {
    var t := EntryText(form, e, entryPort);
    if |t| == 1 {
      assert form == Plain && t == e;
    }
  }

  /**
   The three ways to write a domain accept the same hosts: the domain and everything below it, on
   the port the entry names or, if it names none, on every port. White space around it is ignored.
   */
  lemma EntryAcceptsDomainAndBelow(form: Form, e: string, entryPort: Option<nat>, text: string, host: string, port: Option<nat>)
    requires Normal(e) && (entryPort.Some? ==> entryPort.value <= U16_MAX)
    requires Trim(text) == EntryText(form, e, entryPort)
    ensures NoProxyEntryMatches(host, port, text) <==> (entryPort.None? || entryPort == port) && Covers(Lower(e), host)
  {
    NotBlankNotStar(form, e, entryPort);
    match entryPort {
      case Some(p) => EntryWithPortSplits(form, e, p);
      case None => EntryWithoutPortSplits(form, e);
    }
    PrefixIsDropped(form, e);
    MatchAfterSplit(text, host, port, Prefix(form) + e, entryPort);
    LowerIsIdempotent(e);
    MatchIsCover(Lower(e), host);
  }

  /** A written entry is already trimmed. */
  lemma EntryTextIsTrimmed(form: Form, e: string, entryPort: Option<nat>)
    requires Normal(e) && (entryPort.Some? ==> entryPort.value <= U16_MAX)
    ensures Trim(EntryText(form, e, entryPort)) == EntryText(form, e, entryPort)
  {
    var t := EntryText(form, e, entryPort);
    if entryPort.Some? {
      var digits := Digits(entryPort.value);
      PortReadsBack(entryPort.value);
      assert t[|t| - 1] == digits[|digits| - 1];
    } else {
      assert t[|t| - 1] == e[|e| - 1];
    }
    TrimIsTrimmed(t);
  }

  /** For a lower-case host, as URLs have them, an entry as written accepts the domain and what ends in a dot and it. */
  lemma WrittenEntryAccepts(form: Form, e: string, entryPort: Option<nat>, host: string, port: Option<nat>)
    requires Normal(e) && (entryPort.Some? ==> entryPort.value <= U16_MAX) && Lower(host) == host
    ensures NoProxyEntryMatches(host, port, EntryText(form, e, entryPort)) <==>
              (entryPort.None? || entryPort == port) && (host == Lower(e) || EndsWith(host, "." + Lower(e)))
  {
    EntryTextIsTrimmed(form, e, entryPort);
    EntryAcceptsDomainAndBelow(form, e, entryPort, EntryText(form, e, entryPort), host, port);
  }

  /** A star accepts every host on every port, and a blank entry none. */
  lemma StarAndBlank(text: string, host: string, port: Option<nat>)
    ensures Trim(text) == "*" ==> NoProxyEntryMatches(host, port, text)
    ensures Blank(text) ==> !NoProxyEntryMatches(host, port, text)
  {
    TrimIsTrimmed(text);
  }

  /** An address as it stands between brackets. */
  predicate IsAddress(a: string) {
    && a != "" && '[' !in a && ']' !in a
    && !("*." <= a) && !("." <= a)
  }

  lemma BracketedSplits(a: string, entryPort: Option<nat>)
    requires ']' !in a && (entryPort.Some? ==> entryPort.value <= U16_MAX)
    ensures var text := "[" + a + "]" + if entryPort.Some? then ":" + Digits(entryPort.value) else "";
            SplitNoProxyEntry(text) == (a, entryPort)
  {
    match entryPort
    case Some(p) =>
      BracketedEntrySplits(a, ":" + Digits(p));
      ColonAndPort(p);
    case None => BracketedEntrySplits(a, "");
  }

  /** An address in brackets, with or without a port, accepts itself in any letter case and what ends in a dot and it. */
  lemma BracketedEntryAccepts(a: string, entryPort: Option<nat>, text: string, host: string, port: Option<nat>)
    requires IsAddress(a) && (entryPort.Some? ==> entryPort.value <= U16_MAX)
    requires Trim(text) == "[" + a + "]" + if entryPort.Some? then ":" + Digits(entryPort.value) else ""
    ensures NoProxyEntryMatches(host, port, text) <==> (entryPort.None? || entryPort == port) && Covers(Lower(a), host)
  {
    assert Trim(text)[0] == '[';
    BracketedSplits(a, entryPort);
    NothingToTrim(a);
    StarsAndDotsDropped(Plain, a);
    assert Prefix(Plain) + a == a;
    MatchAfterSplit(text, host, port, a, entryPort);
    LowerIsIdempotent(a);
    MatchIsCover(Lower(a), host);
  }

  /** A port is a numeral up to 65535, perhaps with leading zeros, perhaps after a plus sign. */
  lemma PortIff(s: string, n: nat)
    ensures ParseU16(s) == Some(n) <==>
              n <= 65535 && exists d :: (s == d || s == "+" + d) && d != "" && AllDigits(d) && Value(d) == n
  {
    if ParseU16(s) == Some(n) {
      var d := if s[0] == '+' then s[1..] else s;
      assert s == d || s == "+" + d;
    }
    if d :| (s == d || s == "+" + d) && d != "" && AllDigits(d) && Value(d) == n && n <= 65535 {
      if s == d {
        assert IsDigit(s[0]);
      } else {
        assert s[1..] == d;
      }
    }
  }

  /** What follows the colon is no port: the whole entry is taken for a host. */
  lemma NoPortNoSplit(host: string, rest: string)
    requires ':' !in rest && ParseU16(rest).None? && !Bracketed(host + ":" + rest)
    ensures SplitNoProxyEntry(host + ":" + rest) == (host + ":" + rest, None)
  {
    BracketSplitIff(host + ":" + rest);
    RSplitAtLast(host, ':', rest);
  }

  lemma NothingLeft(entry: string)
    requires entry == "." || entry == "*."
    ensures SplitNoProxyEntry(entry) == (entry, None) && EntryHost(entry) == ""
  {
    BracketSplitIff(entry);
    assert ':' !in entry && '[' !in entry && ']' !in entry;
    NothingToTrim(entry);
    if entry == "." {
      assert entry[0] != "*."[0] && TrimStars(entry) == entry;
      assert entry[1..] == "" && TrimDots(entry) == TrimDots(entry[1..]) == "";
    } else {
      assert entry[2..] == "" && TrimStars(entry) == TrimStars(entry[2..]) == "";
    }
  }

  /** Nothing is left of these entries, and they accept no host. */
  lemma EmptyNamesAcceptNothing(text: string, host: string, port: Option<nat>)
    requires Trim(text) == "." || Trim(text) == "*." || Trim(text) == "[]"
    ensures !NoProxyEntryMatches(host, port, text)
  {
    var entry := Trim(text);
    if entry == "[]" {
      BracketedSplits("", None);
      assert "[" + "" + "]" + "" == entry;
    } else {
      NothingLeft(entry);
    }
  }
}
