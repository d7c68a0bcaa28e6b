/**
 The placeholders in an agent's command line. The source replaces them one kind after the
 other; the result is that of a single left-to-right pass over the argument.
 */
module AgentArguments {
  import opened Wrappers
  import opened Decimal

  datatype Placeholder = Port | Endpoint | BaseUrl | Host

  const ACP_HOST := "127.0.0.1"
  const EVERY := {Port, Endpoint, BaseUrl, Host}

  function Pattern(k: Placeholder): string {
    match k
    case Port => "${ACP_PORT}"
    case Endpoint => "${ACP_ENDPOINT}"
    case BaseUrl => "${ACP_BASE_URL}"
    case Host => "${ACP_HOST}"
  }

  /** What a placeholder stands for once a listener on `port` is reserved. */
  function Replacement(k: Placeholder, port: nat): string {
    match k
    case Port => Digits(port)
    case Endpoint => ACP_HOST + ":" + Digits(port)
    case BaseUrl => "http://" + ACP_HOST + ":" + Digits(port)
    case Host => ACP_HOST
  }

  /** str::replace: every occurrence found from the left, none overlapping. */
  function Replace(s: string, pattern: string, text: string): string
    requires pattern != ""
  {
    if |s| < |pattern| then s
    else if pattern <= s then text + Replace(s[|pattern|..], pattern, text)
    else [s[0]] + Replace(s[1..], pattern, text)
  }

  /** str::contains. */
  function Contains(s: string, pattern: string): bool {
    pattern <= s || (s != "" && Contains(s[1..], pattern))
  }

  function ExpandAgentArg(arg: string, endpoint: Option<nat>): string {
    match endpoint
    case None => arg
    case Some(port) =>
      var a := Replace(arg, Pattern(Port), Replacement(Port, port));
      var b := Replace(a, Pattern(Endpoint), Replacement(Endpoint, port));
      var c := Replace(b, Pattern(BaseUrl), Replacement(BaseUrl, port));
      Replace(c, Pattern(Host), Replacement(Host, port))
  }

  function ContainsAcpPlaceholder(arg: string): bool {
    exists k :: k in EVERY && Contains(arg, Pattern(k))
  }

  /** reserve_for_command reserves a listener exactly when this holds. */
  function NeedsEndpoint(command: seq<string>): bool {
    exists i :: 0 <= i < |command| && ContainsAcpPlaceholder(command[i])
  }

  // ----- the reference: one pass, all placeholders of `done` at once

  function PlaceholderAt(s: string): Option<Placeholder> {
    if Pattern(Port) <= s then Some(Port)
    else if Pattern(Endpoint) <= s then Some(Endpoint)
    else if Pattern(BaseUrl) <= s then Some(BaseUrl)
    else if Pattern(Host) <= s then Some(Host)
    else None
  }

  function Substitute(s: string, done: set<Placeholder>, port: nat): string {
    if s == "" then ""
    else
      match PlaceholderAt(s)
      case Some(k) =>
        (if k in done then Replacement(k, port) else Pattern(k)) + Substitute(s[|Pattern(k)|..], done, port)
      case None => [s[0]] + Substitute(s[1..], done, port)
  }

  // ----- why the kinds do not interfere

  /** The characters of a placeholder after its dollar sign. */
  predicate InBody(c: char) {
    c == '{' || c == '}' || c == '_' || 'A' <= c <= 'Z'
  }

  lemma PatternShape(k: Placeholder)
    ensures |Pattern(k)| > 2 && Pattern(k)[0] == '$'
    ensures forall i :: 1 <= i < |Pattern(k)| ==> InBody(Pattern(k)[i])
  {
  }

  lemma PatternsDiffer(j: Placeholder, k: Placeholder, s: string)
    requires Pattern(j) <= s && Pattern(k) <= s
    ensures j == k
  {
    assert s[7] == Pattern(j)[7] == Pattern(k)[7];
    assert s[8] == Pattern(j)[8] == Pattern(k)[8];
  }

  lemma PlaceholderAtFinds(s: string, k: Placeholder)
    ensures PlaceholderAt(s) == Some(k) <==> Pattern(k) <= s
  {
    if Pattern(k) <= s && PlaceholderAt(s) != Some(k) {
      PatternsDiffer(k, PlaceholderAt(s).value, s);
    }
  }

  /** Text in which no placeholder can begin or go on. */
  predicate Harmless(text: string) {
    forall i :: 0 <= i < |text| ==> text[i] != '$' && !InBody(text[i])
  }

  lemma HarmlessJoins(s: string, t: string)
    requires Harmless(s) && Harmless(t)
    ensures Harmless(s + t)
  {
  }

  lemma ReplacementShape(k: Placeholder, port: nat)
    ensures Replacement(k, port) != "" && Harmless(Replacement(k, port))
  {
    DigitsAreDecimal(port);
    var digits := Digits(port);
    assert Harmless(digits);
    HarmlessJoins(ACP_HOST, ":");
    HarmlessJoins(ACP_HOST + ":", digits);
    HarmlessJoins("http://", ACP_HOST);
    HarmlessJoins("http://" + ACP_HOST, ":");
    HarmlessJoins("http://" + ACP_HOST + ":", digits);
  }

  predicate NoDollar(u: string) {
    forall i :: 0 <= i < |u| ==> u[i] != '$'
  }

  lemma {:induction false} ReplaceSkips(u: string, s: string, pattern: string, text: string)
    requires NoDollar(u) && pattern != "" && pattern[0] == '$'
    ensures Replace(u + s, pattern, text) == u + Replace(s, pattern, text)
    ensures Contains(u + s, pattern) == Contains(s, pattern)
  {
    if u == "" {
      assert u + s == s;
    } else {
      assert (u + s)[0] == u[0] != pattern[0];
      assert (u + s)[1..] == u[1..] + s;
      ReplaceSkips(u[1..], s, pattern, text);
      if |u + s| < |pattern| {
        ReplaceShort(u[1..] + s, pattern, text);
        ReplaceShort(s, pattern, text);
      }
      assert u + Replace(s, pattern, text) == [u[0]] + (u[1..] + Replace(s, pattern, text));
    }
  }

  lemma ReplaceShort(s: string, pattern: string, text: string)
    requires |s| < |pattern|
    ensures Replace(s, pattern, text) == s
  {
  }

  /** A substituted text can begin with the rest of a placeholder only if the original does. */
  lemma {:induction false} BodyComesFromOriginal(w: string, s: string, done: set<Placeholder>, port: nat)
    requires forall i :: 0 <= i < |w| ==> InBody(w[i])
    requires w <= Substitute(s, done, port)
    ensures w <= s
  {
    if w != "" && s != "" {
      assert w[0] == Substitute(s, done, port)[0];
      match PlaceholderAt(s)
      case Some(k) =>
        PatternShape(k);
        ReplacementShape(k, port);
      case None =>
        assert w[1..] <= Substitute(s[1..], done, port);
        BodyComesFromOriginal(w[1..], s[1..], done, port);
        assert w == [w[0]] + w[1..];
    }
  }

  /** No placeholder arises at a place of the substituted text where the original had none. */
  lemma NothingNewHere(s: string, done: set<Placeholder>, port: nat, k: Placeholder)
    requires s != "" && PlaceholderAt(s) == None
    ensures !(Pattern(k) <= Substitute(s, done, port))
  {
    PatternShape(k);
    var p, out := Pattern(k), Substitute(s, done, port);
    if p <= out {
      assert forall i :: 0 <= i < |p[1..]| ==> p[1..][i] == p[i + 1];
      assert out[1..] == Substitute(s[1..], done, port);
      assert p == [p[0]] + p[1..] && s == [s[0]] + s[1..];
      PlaceholderAtFinds(s, k);
      BodyComesFromOriginal(p[1..], s[1..], done, port);
    }
  }

  /** Replacing one more kind in a substituted text substitutes that kind as well. */
  lemma {:induction false} ReplaceOneKind(s: string, done: set<Placeholder>, port: nat, k: Placeholder)
    requires k !in done
    ensures Replace(Substitute(s, done, port), Pattern(k), Replacement(k, port)) == Substitute(s, done + {k}, port)
  {
    var p, text := Pattern(k), Replacement(k, port);
    PatternShape(k);
    if s != "" {
      match PlaceholderAt(s)
      case Some(j) =>
        var rest := Substitute(s[|Pattern(j)|..], done, port);
        PatternShape(j);
        ReplaceOneKind(s[|Pattern(j)|..], done, port, k);
        if j in done {
          ReplacementShape(j, port);
          ReplaceSkips(Replacement(j, port), rest, Pattern(k), text);
        } else if j == k {
          assert p <= p + rest && (p + rest)[|p|..] == rest;
        } else {
          KeepOtherPattern(j, k, rest, text);
        }
      case None =>
        var rest := Substitute(s[1..], done, port);
        ReplaceOneKind(s[1..], done, port, k);
        NothingNewHere(s, done, port, k);
        assert ([s[0]] + rest)[1..] == rest;
        if |[s[0]] + rest| < |p| {
          ReplaceShort([s[0]] + rest, p, text);
          ReplaceShort(rest, p, text);
        }
    }
  }

  lemma KeepOtherPattern(j: Placeholder, k: Placeholder, rest: string, text: string)
    requires j != k
    ensures Replace(Pattern(j) + rest, Pattern(k), text) == Pattern(j) + Replace(rest, Pattern(k), text)
  {
    PatternShape(j);
    PatternShape(k);
    if Pattern(k) <= Pattern(j) + rest {
      PatternsDiffer(j, k, Pattern(j) + rest);
    }
    assert Pattern(j) == ['$'] + Pattern(j)[1..];
    SkipWhole(Pattern(j)[1..], rest, Pattern(k), text);
  }

  /** A dollar sign that does not begin a match is passed over with what follows up to the next one. */
  lemma SkipWhole(u: string, rest: string, pattern: string, text: string)
    requires NoDollar(u) && pattern != "" && pattern[0] == '$' && !(pattern <= ['$'] + u + rest)
    ensures Replace(['$'] + u + rest, pattern, text) == ['$'] + u + Replace(rest, pattern, text)
  {
    var s, out := ['$'] + u + rest, Replace(rest, pattern, text);
    assert s[1..] == u + rest;
    ReplaceOneOff(s, pattern, text);
    ReplaceSkips(u, rest, pattern, text);
    assert ['$'] + u + out == ['$'] + (u + out);
  }

  lemma ReplaceOneOff(s: string, pattern: string, text: string)
    requires s != "" && pattern != "" && !(pattern <= s)
    ensures Replace(s, pattern, text) == [s[0]] + Replace(s[1..], pattern, text)
  {
    if |s| < |pattern| {
      ReplaceShort(s[1..], pattern, text);
    }
  }

  lemma PrefixAndRest(p: string, s: string)
    requires p <= s
    ensures p + s[|p|..] == s
  {
  }

  lemma SubstituteAt(s: string, k: Placeholder, done: set<Placeholder>, port: nat)
    requires PlaceholderAt(s) == Some(k) && k !in done
    ensures 0 < |Pattern(k)| <= |s| && Pattern(k) <= s
    ensures Substitute(s, done, port) == Pattern(k) + Substitute(s[|Pattern(k)|..], done, port)
  {
    PlaceholderAtFinds(s, k);
  }

  lemma {:induction false} SubstituteNothing(s: string, port: nat)
    ensures Substitute(s, {}, port) == s
  {
    if s != "" {
      match PlaceholderAt(s)
      case Some(k) =>
        SubstituteAt(s, k, {}, port);
        SubstituteNothing(s[|Pattern(k)|..], port);
        PrefixAndRest(Pattern(k), s);
      case None =>
        SubstituteNothing(s[1..], port);
        assert [s[0]] + s[1..] == s;
    }
  }

  // ----- the results

  /** Four replacements in a row are one simultaneous pass. */
  lemma ExpansionIsOnePass(arg: string, port: nat)
    ensures ExpandAgentArg(arg, Some(port)) == Substitute(arg, EVERY, port)
  {
    SubstituteNothing(arg, port);
    ReplaceOneKind(arg, {}, port, Port);
    ReplaceOneKind(arg, {Port}, port, Endpoint);
    ReplaceOneKind(arg, {Port, Endpoint}, port, BaseUrl);
    ReplaceOneKind(arg, {Port, Endpoint, BaseUrl}, port, Host);
    assert {} + {Port} == {Port};
    assert {Port} + {Endpoint} == {Port, Endpoint};
    assert {Port, Endpoint} + {BaseUrl} == {Port, Endpoint, BaseUrl};
    assert {Port, Endpoint, BaseUrl} + {Host} == EVERY;
  }

  lemma {:induction false} SubstitutedIsClean(s: string, port: nat, k: Placeholder)
    ensures !Contains(Substitute(s, EVERY, port), Pattern(k))
  {
    PatternShape(k);
    if s != "" {
      match PlaceholderAt(s)
      case Some(j) =>
        PatternShape(j);
        ReplacementShape(j, port);
        SubstitutedIsClean(s[|Pattern(j)|..], port, k);
        ReplaceSkips(Replacement(j, port), Substitute(s[|Pattern(j)|..], EVERY, port), Pattern(k), "");
      case None =>
        SubstitutedIsClean(s[1..], port, k);
        NothingNewHere(s, EVERY, port, k);
        assert ([s[0]] + Substitute(s[1..], EVERY, port))[1..] == Substitute(s[1..], EVERY, port);
    }
  }

  /** An expanded argument is free of placeholders, also across the seams of replaced text. */
  lemma ExpansionLeavesNoPlaceholder(arg: string, port: nat)
    ensures !ContainsAcpPlaceholder(ExpandAgentArg(arg, Some(port)))
  {
    ExpansionIsOnePass(arg, port);
    forall k | k in EVERY ensures !Contains(ExpandAgentArg(arg, Some(port)), Pattern(k)) {
      SubstitutedIsClean(arg, port, k);
    }
  }

  lemma {:induction false} ReplaceNothing(s: string, pattern: string, text: string)
    requires pattern != "" && !Contains(s, pattern)
    ensures Replace(s, pattern, text) == s
  {
    if |s| >= |pattern| {
      ReplaceNothing(s[1..], pattern, text);
    }
  }

  lemma ExpansionChangesIffPlaceholder(arg: string, port: nat)
    ensures ExpandAgentArg(arg, Some(port)) != arg <==> ContainsAcpPlaceholder(arg)
  {
    if ContainsAcpPlaceholder(arg) {
      ExpansionLeavesNoPlaceholder(arg, port);
    } else {
      assert Port in EVERY && Endpoint in EVERY && BaseUrl in EVERY && Host in EVERY;
      ReplaceNothing(arg, Pattern(Port), Replacement(Port, port));
      ReplaceNothing(arg, Pattern(Endpoint), Replacement(Endpoint, port));
      ReplaceNothing(arg, Pattern(BaseUrl), Replacement(BaseUrl, port));
      ReplaceNothing(arg, Pattern(Host), Replacement(Host, port));
    }
  }

  /** An endpoint is reserved exactly when some argument would come out different with one. */
  lemma EndpointReservedIffUsed(command: seq<string>, port: nat)
    ensures NeedsEndpoint(command) <==>
              exists i :: 0 <= i < |command| && ExpandAgentArg(command[i], Some(port)) != command[i]
  {
    forall i | 0 <= i < |command|
      ensures ExpandAgentArg(command[i], Some(port)) != command[i] <==> ContainsAcpPlaceholder(command[i])
    {
      ExpansionChangesIffPlaceholder(command[i], port);
    }
  }

  /** What an argument that is just a placeholder becomes. */
  lemma PlaceholderAlone(arg: string, port: nat)
    ensures arg == "${ACP_HOST}" ==> ExpandAgentArg(arg, Some(port)) == "127.0.0.1"
    ensures arg == "${ACP_PORT}" ==> ExpandAgentArg(arg, Some(port)) == Digits(port)
    ensures arg == "${ACP_ENDPOINT}" ==> ExpandAgentArg(arg, Some(port)) == "127.0.0.1:" + Digits(port)
    ensures arg == "${ACP_BASE_URL}" ==> ExpandAgentArg(arg, Some(port)) == "http://127.0.0.1:" + Digits(port)
  {
    forall k | arg == Pattern(k) ensures ExpandAgentArg(arg, Some(port)) == Replacement(k, port) {
      WholeArgument(k, port);
    }
    assert Pattern(Host) == "${ACP_HOST}" && Pattern(Port) == "${ACP_PORT}";
    assert Pattern(Endpoint) == "${ACP_ENDPOINT}" && Pattern(BaseUrl) == "${ACP_BASE_URL}";
    assert Replacement(Endpoint, port) == "127.0.0.1:" + Digits(port);
    assert Replacement(BaseUrl, port) == "http://127.0.0.1:" + Digits(port);
  }

  lemma WholeArgument(k: Placeholder, port: nat)
    ensures ExpandAgentArg(Pattern(k), Some(port)) == Replacement(k, port)
  {
    ExpansionIsOnePass(Pattern(k), port);
    PlaceholderAtFinds(Pattern(k), k);
    PatternShape(k);
    assert Pattern(k)[|Pattern(k)|..] == "";
  }

  /** When no endpoint is reserved the arguments pass unchanged, which is what any endpoint would have made of them. */
  lemma NoEndpointNoChange(command: seq<string>, i: nat, port: nat)
    requires !NeedsEndpoint(command) && i < |command|
    ensures ExpandAgentArg(command[i], None) == command[i] == ExpandAgentArg(command[i], Some(port))
  {
    ExpansionChangesIffPlaceholder(command[i], port);
  }
}
