/**
 The Host header printer against the URL parser: which hosts survive being printed and parsed again.
 (Section 7.2 of RFC 9110 and section 3.2.2 of RFC 3986.)
 */
module HostUrls {
  import opened Decimals

  const NOT_FOUND: int := -1

  datatype UrlParts = UrlParts(host: string, port: string, path: string, tls: bool)

  /** The first position of `c` at or after `from`. */
  function IndexOf(s: string, c: char, from: nat): (i: int)
    requires from <= |s|
    ensures i == NOT_FOUND <==> c !in s[from..]
    ensures i != NOT_FOUND ==> from <= i < |s| && s[i] == c && c !in s[from..i]
    decreases |s| - from
  {
    if from == |s| then
      NOT_FOUND
    else if s[from] == c then
      from
    else
      assert s[from..] == [s[from]] + s[from + 1..];
      var i := IndexOf(s, c, from + 1);
      assert i != NOT_FOUND ==> s[from..i] == [s[from]] + s[from + 1..i];
      i
  }

  predicate SeparatorAt(s: string, i: nat) {
    i + 3 <= |s| && s[i..i + 3] == "://"
  }

  /** The first position of "://" at or after `from`. */
  function IndexOfSeparator(s: string, from: nat): (i: int)
    requires from <= |s|
    ensures i == NOT_FOUND ==> forall k: nat :: from <= k ==> !SeparatorAt(s, k)
    ensures i != NOT_FOUND ==> from <= i && SeparatorAt(s, i) && forall k: nat :: from <= k < i ==> !SeparatorAt(s, k)
    decreases |s| - from
  {
    if SeparatorAt(s, from) then from
    else if from == |s| then NOT_FOUND
    else IndexOfSeparator(s, from + 1)
  }

  function DefaultPort(tls: bool): nat {
    if tls then 443 else 80
  }

  /** The host and port of an authority. Brackets around an IPv6 literal are taken off. */
  function ParseAuthority(authority: string, tls: bool): (string, string) {
    var default := Decimal(DefaultPort(tls));
    if |authority| > 1 && authority[0] == '[' then
      var close := IndexOf(authority, ']', 0);
      if close != NOT_FOUND then
        (authority[1..close],
         if close + 1 < |authority| && authority[close + 1] == ':' then authority[close + 2..] else default)
      else
        (authority, default)
    else
      var colon := IndexOf(authority, ':', 0);
      if colon != NOT_FOUND then (authority[..colon], authority[colon + 1..]) else (authority, default)
  }

  function ParseUrl(url: string): UrlParts {
    var separator := IndexOfSeparator(url, 0);
    var start := if separator != NOT_FOUND then separator + 3 else 0;
    var tls := separator != NOT_FOUND && (url[..separator] == "https" || url[..separator] == "wss");
    var slash := IndexOf(url, '/', start);
    var path := if slash != NOT_FOUND then url[slash..] else "/";
    var authority := if slash != NOT_FOUND then url[start..slash] else url[start..];
    var parsed := ParseAuthority(authority, tls);
    UrlParts(parsed.0, parsed.1, path, tls)
  }

  /** The port is left out when it is the scheme's default. */
  function PortSuffix(port: nat, tls: bool): string {
    if port != DefaultPort(tls) then ":" + Decimal(port) else ""
  }

  function FormatHost(host: string, port: nat, tls: bool): string {
    (if ':' in host then "[" + host + "]" else host) + PortSuffix(port, tls)
  }

  /** The hosts that survive printing and parsing. */
  predicate Survives(host: string, port: nat, tls: bool) {
    && '/' !in host
    && if ':' in host then
         ']' !in host
       else
         host == "" || host[0] != '[' || (']' !in host && port == DefaultPort(tls))
  }

  // ----- The authority

  lemma NoDigits(s: string, c: char)
    requires !IsDigit(c) && forall i :: 0 <= i < |s| ==> IsDigit(s[i])
    ensures c !in s
  {
  }

  lemma DecimalHasNo(n: nat, c: char)
    requires !IsDigit(c)
    ensures c !in Decimal(n)
  {
    NoDigits(Decimal(n), c);
  }

  lemma IndexUnique(s: string, c: char, from: nat, i: nat)
    requires from <= i < |s| && s[i] == c && c !in s[from..i]
    ensures IndexOf(s, c, from) == i
  {
    IndexAtMost(s, c, from, i);
  }

  lemma IndexAtMost(s: string, c: char, from: nat, i: nat)
    requires from <= i < |s| && s[i] == c
    ensures from <= IndexOf(s, c, from) <= i
  {
    assert s[from..][i - from] == c;
  }

  /** What follows a closing bracket, or nothing, is the port. */
  lemma BracketsParsed(host: string, suffix: string, port: nat, tls: bool)
    requires ']' !in host && host != "" && suffix == PortSuffix(port, tls)
    ensures ParseAuthority("[" + host + "]" + suffix, tls) == (host, Decimal(port))
  {
    var a, end := "[" + host + "]" + suffix, |host| + 1;
    assert a[0..end] == "[" + host;
    IndexUnique(a, ']', 0, end);
    assert a[1..end] == host;
    if suffix != "" {
      assert a[end + 1] == suffix[0] && a[end + 2..] == Decimal(port);
    }
  }

  lemma BracketsCut(host: string, suffix: string, tls: bool)
    requires ']' in host
    ensures ParseAuthority("[" + host + "]" + suffix, tls).0 != host
  {
    var a := "[" + host + "]" + suffix;
    var i :| 0 <= i < |host| && host[i] == ']';
    assert a[i + 1] == ']';
    IndexAtMost(a, ']', 0, i + 1);
    assert |a[1..IndexOf(a, ']', 0)]| < |host|;
  }

  /** An IPv6 literal comes back without its brackets, provided that it holds no closing bracket. */
  lemma BracketedAuthority(host: string, port: nat, tls: bool)
    requires ':' in host
    ensures ParseAuthority(FormatHost(host, port, tls), tls) == (host, Decimal(port)) <==> ']' !in host
  {
    if ']' in host {
      BracketsCut(host, PortSuffix(port, tls), tls);
    } else {
      BracketsParsed(host, PortSuffix(port, tls), port, tls);
    }
  }

  lemma PlainParsed(host: string, suffix: string, port: nat, tls: bool)
    requires ':' !in host && (host == "" || host[0] != '[') && suffix == PortSuffix(port, tls)
    ensures ParseAuthority(host + suffix, tls) == (host, Decimal(port))
  {
    var a := host + suffix;
    if suffix != "" {
      assert a[0..|host|] == host && a[|host|] == ':';
      IndexUnique(a, ':', 0, |host|);
      assert a[..|host|] == host && a[|host| + 1..] == Decimal(port);
    } else {
      assert a == host && a[0..] == a;
    }
  }

  /** A name that starts with '[' is taken for a literal: cut at a ']', or read with its port as one name. */
  lemma PlainBracket(host: string, suffix: string, port: nat, tls: bool)
    requires ':' !in host && host != "" && host[0] == '[' && suffix == PortSuffix(port, tls)
    ensures ParseAuthority(host + suffix, tls) == (host, Decimal(port)) <==> ']' !in host && suffix == ""
  {
    var a := host + suffix;
    DecimalHasNo(port, ']');
    assert a[0..] == a;
    if ']' in host {
      var i :| 0 <= i < |host| && host[i] == ']';
      assert a[i] == ']';
      IndexAtMost(a, ']', 0, i);
      assert |a[1..IndexOf(a, ']', 0)]| < |host|;
    } else {
      assert ']' !in a;
      if suffix == "" {
        assert a == host && ':' !in a;
      } else {
        assert |a| > |host|;
      }
    }
  }

  /** A host name comes back as it is, unless it starts like an IPv6 literal. */
  lemma PlainAuthority(host: string, port: nat, tls: bool)
    requires ':' !in host
    ensures ParseAuthority(FormatHost(host, port, tls), tls) == (host, Decimal(port)) <==>
            host == "" || host[0] != '[' || (']' !in host && port == DefaultPort(tls))
  {
    if host == "" || host[0] != '[' {
      PlainParsed(host, PortSuffix(port, tls), port, tls);
    } else {
      PlainBracket(host, PortSuffix(port, tls), port, tls);
    }
  }

  // ----- The whole URL

  /** The parser invents no character of the host. */
  lemma AuthorityKeepsOut(authority: string, tls: bool, c: char)
    requires c !in authority
    ensures c !in ParseAuthority(authority, tls).0
  {
  }

  lemma SeparatorFirst(scheme: string, rest: string)
    requires ':' !in scheme
    ensures IndexOfSeparator(scheme + "://" + rest, 0) == |scheme|
  {
    var url := scheme + "://" + rest;
    assert SeparatorAt(url, |scheme|);
    assert forall k: nat :: k < |scheme| ==> url[k] != ':';
    forall k: nat | k < |scheme|
      ensures !SeparatorAt(url, k)
    {
      assert k + 3 <= |url| ==> url[k..k + 3][0] != ':';
    }
  }

  /** The schemes that ask for TLS. */
  predicate Secure(scheme: string) {
    scheme == "https" || scheme == "wss"
  }

  /** A path is empty or starts with a slash; an empty one stands for the root. */
  predicate IsPath(path: string) {
    path == "" || path[0] == '/'
  }

  function Rooted(path: string): string {
    if path == "" then "/" else path
  }

  lemma FirstSlash(prefix: string, authority: string, path: string)
    requires '/' !in authority && IsPath(path)
    ensures var url, start := prefix + (authority + path), |prefix|;
            && IndexOf(url, '/', start) == (if path == "" then NOT_FOUND else start + |authority|)
            && url[start..start + |authority|] == authority
            && url[start + |authority|..] == path
  {
    var url, start := prefix + (authority + path), |prefix|;
    var slash := start + |authority|;
    assert url[start..slash] == authority && url[slash..] == path;
    if path == "" {
      assert url[start..] == authority;
    } else {
      assert url[slash] == '/';
      IndexUnique(url, '/', start, slash);
    }
  }

  /** Every URL with a scheme is cut at the right places; only https and wss are secure. */
  lemma UrlSplit(scheme: string, authority: string, path: string)
    requires ':' !in scheme && '/' !in authority && IsPath(path)
    ensures var tls := Secure(scheme);
            ParseUrl(scheme + "://" + (authority + path)) ==
            UrlParts(ParseAuthority(authority, tls).0, ParseAuthority(authority, tls).1, Rooted(path), tls)
  {
    var url := scheme + "://" + (authority + path);
    SeparatorFirst(scheme, authority + path);
    FirstSlash(scheme + "://", authority, path);
    assert url[..|scheme|] == scheme;
    assert path == "" ==> url[|scheme| + 3..] == authority;
  }

  /** A URL without a scheme is not secure. */
  lemma PlainSplit(authority: string, path: string)
    requires '/' !in authority && IsPath(path) && forall k: nat :: !SeparatorAt(authority + path, k)
    ensures ParseUrl(authority + path) ==
            UrlParts(ParseAuthority(authority, false).0, ParseAuthority(authority, false).1, Rooted(path), false)
  {
    var url := authority + path;
    FirstSlash("", authority, path);
    assert "" + url == url;
    assert IndexOfSeparator(url, 0) == NOT_FOUND;
    assert path == "" ==> url == authority && url[0..] == authority;
  }

  lemma SlashNeverParsed(url: string)
    ensures '/' !in ParseUrl(url).host
  {
    var separator := IndexOfSeparator(url, 0);
    var start := if separator != NOT_FOUND then separator + 3 else 0;
    var slash := IndexOf(url, '/', start);
    var authority := if slash != NOT_FOUND then url[start..slash] else url[start..];
    AuthorityKeepsOut(authority, ParseUrl(url).tls, '/');
  }

  /**
   Printing a host header and parsing it as part of a URL of any scheme gives the same host, port, path and security
   back, for exactly the hosts that survive: host names and IPv6 literals alike, with or without the default port, with
   or without a path.
   */
  lemma RoundTrip(scheme: string, host: string, port: nat, path: string)
    requires ':' !in scheme && IsPath(path)
    ensures var tls := Secure(scheme);
            var url := scheme + "://" + (FormatHost(host, port, tls) + path);
            ParseUrl(url) == UrlParts(host, Decimal(port), Rooted(path), tls) <==> Survives(host, port, tls)
  {
    var tls := Secure(scheme);
    var authority := FormatHost(host, port, tls);
    if '/' in host {
      SlashNeverParsed(scheme + "://" + (authority + path));
    } else {
      DecimalHasNo(port, '/');
      assert '/' !in authority;
      UrlSplit(scheme, authority, path);
      if ':' in host {
        BracketedAuthority(host, port, tls);
      } else {
        PlainAuthority(host, port, tls);
      }
    }
  }

  /** The hosts that the design has in mind all survive. */
  lemma OrdinaryHostsSurvive(host: string, port: nat, tls: bool)
    requires '/' !in host && '[' !in host && ']' !in host
    ensures Survives(host, port, tls)
  {
  }

  lemma PortNumerals()
    ensures Decimal(443) == "443" && Decimal(80) == "80"
  {
    assert Decimal(44) == Decimal(4) + [Digit(4)];
    assert Decimal(443) == Decimal(44) + [Digit(3)];
    assert Decimal(80) == Decimal(8) + [Digit(0)];
  }

  lemma PlainDefault(host: string, tls: bool)
    requires '[' !in host && ':' !in host
    ensures ParseAuthority(host, tls) == (host, if tls then "443" else "80")
  {
    PortNumerals();
  }

  lemma LeftOut(host: string)
    requires ':' !in host
    ensures FormatHost(host, 443, true) == host && FormatHost(host, 80, false) == host
  {
  }

  /** The port that is filled in, and left out: 443 under TLS, 80 otherwise. */
  lemma DefaultPorts(scheme: string, host: string, path: string)
    requires ':' !in scheme && IsPath(path) && '/' !in host && '[' !in host && ':' !in host
    ensures ParseUrl(scheme + "://" + (host + path)).port == if Secure(scheme) then "443" else "80"
    ensures FormatHost(host, 443, true) == host && FormatHost(host, 80, false) == host
  {
    UrlSplit(scheme, host, path);
    PlainDefault(host, Secure(scheme));
    LeftOut(host);
  }
}
