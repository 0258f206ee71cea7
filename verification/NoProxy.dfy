/** Which hosts bypass the image proxy (ctrd/image_proxy_util.go). */
module NoProxy {
  import opened Options
  import opened GoStrings

  // ---- Ports --------------------------------------------------------------------------------

  /** hasPort: the last colon comes after the last closing bracket. */
  predicate HasPort(s: string) { LastIndex(s, ':') > LastIndex(s, ']') }

  function StripPort(s: string): string { if HasPort(s) then s[..LastIndex(s, ':')] else s }

  /** net.JoinHostPort, which puts an IPv6 address in brackets. */
  function JoinHostPort(host: string, port: string): string {
    if ':' in host then "[" + host + "]:" + port else host + ":" + port
  }

  /** The host that net.SplitHostPort finds, if the text is a host and a port.  The port
      starts after the last colon; brackets may enclose the host and nothing else, and only
      there it may contain a colon. */
  function SplitHost(s: string): Option<string> {
    var i, end := LastIndex(s, ':'), Index(s, ']');
    if i < 0 then None
    else if s[0] == '[' then
      if end < 0 || end + 1 != i || '[' in s[1..] || ']' in s[i..] then None else Some(s[1..end])
    else if ':' in s[..i] || '[' in s || ']' in s then None
    else Some(s[..i])
  }

  /** canonicalAddr: an empty port becomes the default of the scheme, or stays empty. */
  function CanonicalAddr(scheme: string, host: string, port: string): string {
    JoinHostPort(host, if port != "" then port else DefaultPort(scheme))
  }

  function DefaultPort(scheme: string): string {
    match scheme
    case "http" => "80"
    case "https" => "443"
    case "socks5" => "1080"
    case _ => ""
  }

  lemma LastIndexIs(s: string, c: char, i: nat)
    requires i < |s| && s[i] == c && forall k :: i < k < |s| ==> s[k] != c
    ensures LastIndex(s, c) == i
  {
  }

  lemma LastIndexAppend(a: string, b: string, c: char)
    requires c !in b
    ensures LastIndex(a + b, c) == LastIndex(a, c)
    decreases |b|
  {
    if b != "" {
      assert (a + b)[..|a + b| - 1] == a + b[..|b| - 1];
      LastIndexAppend(a, b[..|b| - 1], c);
    } else {
      assert a + b == a;
    }
  }

  lemma DefaultPortIsPlain(scheme: string)
    ensures ':' !in DefaultPort(scheme) && '[' !in DefaultPort(scheme) && ']' !in DefaultPort(scheme)
  {
  }

  lemma StripAppended(h: string, port: string)
    requires ':' !in port && ']' !in port
    ensures StripPort(h + [':'] + port) == h
  {
    var addr := h + [':'] + port;
    LastIndexIs(addr, ':', |h|);
    assert addr == h + ([':'] + port);
    LastIndexAppend(h, [':'] + port, ']');
    assert addr[..|h|] == h;
  }

  /** Without a colon after the last bracket there is no port to strip. */
  lemma StripNothing(front: string, rest: string)
    requires ':' !in rest
    ensures StripPort(front + [']'] + rest) == front + [']'] + rest
    ensures StripPort(rest) == rest
  {
    var s := front + [']'] + rest;
    assert s[|front|] == ']';
    assert forall k :: |front| < k < |s| ==> s[k] == rest[k - |front| - 1] && s[k] != ':';
  }

  lemma StripJoined(host: string, port: string)
    requires ':' !in port && ']' !in port
    ensures StripPort(JoinHostPort(host, port)) == if ':' in host then "[" + host + "]" else host
  {
    if ':' in host {
      StripAppended("[" + host + "]", port);
      assert "[" + host + "]:" + port == "[" + host + "]" + [':'] + port;
    } else {
      StripAppended(host, port);
    }
  }

  /** The ports that stand for a missing one. */
  lemma DefaultPorts(scheme: string, host: string)
    requires ':' !in host
    ensures scheme == "http" ==> CanonicalAddr(scheme, host, "") == host + ":" + "80"
    ensures scheme == "https" ==> CanonicalAddr(scheme, host, "") == host + ":" + "443"
    ensures scheme == "socks5" ==> CanonicalAddr(scheme, host, "") == host + ":" + "1080"
    ensures scheme !in {"http", "https", "socks5"} ==> CanonicalAddr(scheme, host, "") == host + ":"
  {
  }

  /** Stripping the port of a canonical address gives the host, in brackets when it contains
      a colon. */
  lemma StripCanonical(scheme: string, host: string, port: string)
    requires ':' !in port && ']' !in port
    ensures StripPort(CanonicalAddr(scheme, host, port)) == if ':' in host then "[" + host + "]" else host
  {
    DefaultPortIsPlain(scheme);
    StripJoined(host, if port != "" then port else DefaultPort(scheme));
  }

  /** net.SplitHostPort gets the host of a canonical address back. */
  lemma SplitCanonical(scheme: string, host: string, port: string)
    requires '[' !in host && ']' !in host
    requires ':' !in port && '[' !in port && ']' !in port
    ensures SplitHost(CanonicalAddr(scheme, host, port)) == Some(host)
  {
    DefaultPortIsPlain(scheme);
    SplitJoined(host, if port != "" then port else DefaultPort(scheme));
  }

  /** From position `from` on there are no colons and brackets. */
  ghost predicate PlainFrom(s: string, from: nat) {
    forall k :: from <= k < |s| ==> s[k] != ':' && s[k] != '[' && s[k] != ']'
  }

  lemma SplitBracketed(s: string, n: nat)
    requires 2 <= n < |s| && s[0] == '[' && s[n - 1] == ']' && s[n] == ':' && PlainFrom(s, n + 1)
    requires forall k :: 1 <= k < n - 1 ==> s[k] != '[' && s[k] != ']'
    ensures SplitHost(s) == Some(s[1..n - 1])
  {
    LastIndexIs(s, ':', n);
    assert Index(s, ']') == n - 1;
  }

  lemma SplitPlain(s: string, n: nat)
    requires n < |s| && s[n] == ':' && PlainFrom(s, n + 1)
    requires forall k :: 0 <= k < n ==> s[k] != ':' && s[k] != '[' && s[k] != ']'
    ensures SplitHost(s) == Some(s[..n])
  {
    LastIndexIs(s, ':', n);
  }

  /** No colon and no bracket. */
  predicate Plain(s: string) { ':' !in s && '[' !in s && ']' !in s }

  /** What splits into a host and a port: two texts without colons and brackets around a colon,
      or a host in brackets, which may have colons of its own, in front of one. */
  lemma SplitsExactly(s: string, host: string)
    ensures SplitHost(s) == Some(host) <==>
              exists port: string ::
                && ':' !in port && '[' !in port && ']' !in port && '[' !in host && ']' !in host
                && ((':' !in host && s == host + [':'] + port) || s == ['['] + host + [']', ':'] + port)
  {
    if SplitHost(s) == Some(host) {
      var i := LastIndex(s, ':');
      if s[0] == '[' {
        BracketedSound(s, i, host, s[i + 1..]);
      } else {
        PlainSound(s, i, host, s[i + 1..]);
      }
    }
    if port: string :| && ':' !in port && '[' !in port && ']' !in port && '[' !in host && ']' !in host
                       && ((':' !in host && s == host + [':'] + port) || s == ['['] + host + [']', ':'] + port) {
      SplitComplete(s, host, port);
    }
  }

  lemma SplitComplete(s: string, host: string, port: string)
    requires Plain(port) && '[' !in host && ']' !in host
    requires (':' !in host && s == host + [':'] + port) || s == ['['] + host + [']', ':'] + port
    ensures SplitHost(s) == Some(host)
  {
    if s == ['['] + host + [']', ':'] + port {
      assert s[1..|host| + 1] == host;
      SplitBracketed(s, |host| + 2);
    } else {
      assert s[..|host|] == host;
      SplitPlain(s, |host|);
    }
  }

  lemma PlainSound(s: string, i: nat, host: string, port: string)
    requires i < |s| && s[i] == ':' && host == s[..i] && port == s[i + 1..]
    requires forall k :: i < k < |s| ==> s[k] != ':'
    requires ':' !in host && '[' !in s && ']' !in s
    ensures Plain(host) && Plain(port) && s == host + [':'] + port
  {
    assert forall k :: 0 <= k < |host| ==> host[k] == s[k];
    assert forall k :: 0 <= k < |port| ==> port[k] == s[i + 1 + k];
  }

  lemma BracketedSound(s: string, i: nat, host: string, port: string)
    requires 2 <= i < |s| && s[0] == '[' && s[i - 1] == ']' && s[i] == ':' && host == s[1..i - 1] && port == s[i + 1..]
    requires forall k :: i < k < |s| ==> s[k] != ':'
    requires '[' !in s[1..] && ']' !in s[i..] && ']' !in host
    ensures '[' !in host && Plain(port) && s == ['['] + host + [']', ':'] + port
  {
    assert forall k :: 0 <= k < |host| ==> host[k] == s[1..][k];
    assert forall k :: 0 <= k < |port| ==> port[k] == s[i + 1 + k] == s[1..][i + k] == s[i..][k + 1];
  }

  lemma SplitJoined(host: string, port: string)
    requires '[' !in host && ']' !in host
    requires ':' !in port && '[' !in port && ']' !in port
    ensures SplitHost(JoinHostPort(host, port)) == Some(host)
  {
    var s := JoinHostPort(host, port);
    if ':' in host {
      assert s[1..|host| + 1] == host;
      SplitBracketed(s, |host| + 2);
    } else {
      assert s[..|host|] == host;
      SplitPlain(s, |host|);
    }
  }

  // ---- What an entry matches ------------------------------------------------------------------

  function Clean(s: string): string { ToLower(TrimSpace(s)) }

  /** A NO_PROXY entry names a host; a dot in front makes no difference. */
  function NameOf(entry: string): string { TrimPrefix(entry, ".") }

  /** The host is the named one or lies below it. */
  predicate CoveredBy(host: string, name: string) { host == name || HasSuffix(host, "." + name) }

  /** Whether one entry of the list lets `host` bypass the proxy. */
  predicate EntryMatches(host: string, entry: string) {
    var p := Clean(entry);
    p != "" && if StripPort(p) == "" then host == "" else CoveredBy(host, NameOf(StripPort(p)))
  }

  function Matcher(host: string): string -> bool { entry => EntryMatches(host, entry) }

  predicate Any(f: string -> bool, entries: seq<string>) { exists i | 0 <= i < |entries| :: f(entries[i]) }

  predicate Bypassed(host: string, entries: seq<string>) { Any(Matcher(host), entries) }

  /** The decision of useProxy for an address that passes the early host checks. */
  predicate Proxied(host: string, noProxy: string) { noProxy != "*" && !Bypassed(host, Split(noProxy, ',')) }

  lemma AnyOfSame(f: string -> bool, a: seq<string>, b: seq<string>)
    requires forall e :: e in a ==> e in b
    ensures Any(f, a) ==> Any(f, b)
  {
    if i :| 0 <= i < |a| && f(a[i]) {
      assert a[i] in b;
    }
  }

  lemma AnyConcat(f: string -> bool, a: seq<string>, b: seq<string>)
    ensures Any(f, a + b) <==> Any(f, a) || Any(f, b)
  {
    if i :| 0 <= i < |a| && f(a[i]) {
      assert f((a + b)[i]);
    }
    if i :| 0 <= i < |b| && f(b[i]) {
      assert f((a + b)[|a| + i]);
    }
  }

  lemma OneEntry(f: string -> bool, entry: string)
    ensures Any(f, [entry]) <==> f(entry)
  {
    assert [entry][0] == entry;
  }

  lemma BypassedStep(host: string, entries: seq<string>, i: nat)
    requires i < |entries|
    ensures Bypassed(host, entries[..i + 1]) <==> Bypassed(host, entries[..i]) || Bypassed(host, [entries[i]])
    ensures Bypassed(host, entries[..i + 1]) ==> Bypassed(host, entries)
  {
    var f := Matcher(host);
    assert entries[..i + 1] == entries[..i] + [entries[i]];
    AnyConcat(f, entries[..i], [entries[i]]);
    AnyOfSame(f, entries[..i + 1], entries);
  }

  // ---- The code ---------------------------------------------------------------------------------

  /** The tests of the loop body on a trimmed, lower-cased, port-stripped entry.  The index
      of the last test is in range because `addr` is longer than `p` there. */
  lemma BodyTests(addr: string, p: string)
    requires p != ""
    ensures addr != p && HasSuffix(addr, p) ==> 0 <= |addr| - |p| - 1 < |addr|
    ensures CoveredBy(addr, NameOf(p)) <==>
            || addr == p
            || (p[0] == '.' && (HasSuffix(addr, p) || addr == p[1..]))
            || (p[0] != '.' && addr != p && HasSuffix(addr, p) && addr[|addr| - |p| - 1] == '.')
  {
    if |addr| == |p| {
      assert addr[|addr| - |p|..] == addr;
    }
    if p[0] == '.' {
      assert p == "." + p[1..];
      assert p[..1] == ".";
    } else {
      assert p[..1] != "." by { assert p[..1][0] != '.'; }
      if HasSuffix(addr, "." + p) {
        assert addr[|addr| - |p|..] == addr[|addr| - |p| - 1..][1..];
      }
      if addr != p && HasSuffix(addr, p) && addr[|addr| - |p| - 1] == '.' {
        assert addr[|addr| - |p| - 1..] == "." + p;
      }
    }
  }

  /** The loop body of useProxy. */
  method EntryBypasses(addr: string, entry: string) returns (bypass: bool)
    ensures bypass <==> EntryMatches(addr, entry)
    ensures bypass <==> Bypassed(addr, [entry])
  {
    OneEntry(Matcher(addr), entry);
    var p := Clean(entry);
    if |p| == 0 {
      return false;
    }
    if HasPort(p) {
      p := p[..LastIndex(p, ':')];
    }
    if addr == p {
      return true;
    }
    if |p| == 0 {
      return false;
    }
    BodyTests(addr, p);
    if p[0] == '.' && (HasSuffix(addr, p) || addr == p[1..]) {
      return true;
    }
    if p[0] != '.' && HasSuffix(addr, p) && addr[|addr| - |p| - 1] == '.' {
      return true;
    }
    return false;
  }

  /** The loop of useProxy. */
  method AnyEntryBypasses(addr: string, entries: seq<string>) returns (bypassed: bool)
    ensures bypassed <==> Bypassed(addr, entries)
  {
    for i := 0 to |entries|
      invariant !Bypassed(addr, entries[..i])
    {
      BypassedStep(addr, entries, i);
      var bypass := EntryBypasses(addr, entries[i]);
      if bypass {
        return true;
      }
    }
    assert entries[..|entries|] == entries;
    return false;
  }

  /** An address goes through the proxy when it is empty, or has a host that is neither the
      local one nor excluded. */
  predicate UsesProxy(address: string, loopback: string -> bool, noProxy: string) {
    || address == ""
    || (SplitHost(address).Some? && !IsLocal(SplitHost(address).value, loopback) &&
        Proxied(StripPort(Clean(address)), noProxy))
  }

  predicate IsLocal(host: string, loopback: string -> bool) { host == "localhost" || loopback(host) }

  /** A list excludes a host when one of its entries matches it. */
  lemma BypassedMeans(host: string, entries: seq<string>)
    ensures Bypassed(host, entries) <==> exists i :: 0 <= i < |entries| && EntryMatches(host, entries[i])
  {
    if i :| 0 <= i < |entries| && Matcher(host)(entries[i]) {
      assert EntryMatches(host, entries[i]);
    }
    if i :| 0 <= i < |entries| && EntryMatches(host, entries[i]) {
      assert Matcher(host)(entries[i]);
    }
  }

  /** An empty address uses the proxy, and one that is no host and port does not.  Any other does
      unless its host is the local one, every host is excluded, or an entry matches it. */
  lemma DecisionMeans(address: string, loopback: string -> bool, noProxy: string)
    ensures address == "" ==> UsesProxy(address, loopback, noProxy)
    ensures address != "" && SplitHost(address).None? ==> !UsesProxy(address, loopback, noProxy)
    ensures address != "" && SplitHost(address).Some? ==>
              (UsesProxy(address, loopback, noProxy) <==>
                 && SplitHost(address).value != "localhost" && !loopback(SplitHost(address).value) && noProxy != "*"
                 && !Bypassed(StripPort(ToLower(TrimSpace(address))), Split(noProxy, ',')))
  {
  }

  /** useProxy; `loopback` tells which texts are IP addresses of the local host. */
  method UseProxy(address: string, loopback: string -> bool, noProxy: string) returns (use: bool)
    ensures use <==> UsesProxy(address, loopback, noProxy)
  {
    if |address| == 0 {
      return true;
    }
    var host := SplitHost(address);
    if host.None? {
      return false;
    }
    if host.value == "localhost" {
      return false;
    }
    if loopback(host.value) {
      return false;
    }
    if noProxy == "*" {
      return false;
    }
    var addr := Clean(address);
    if HasPort(addr) {
      addr := addr[..LastIndex(addr, ':')];
    }
    var bypassed := AnyEntryBypasses(addr, Split(noProxy, ','));
    return !bypassed;
  }

  // ---- Entries and addresses as people write them -------------------------------------------------

  lemma ToLowerConcat(a: string, b: string)
    ensures ToLower(a + b) == ToLower(a) + ToLower(b)
  {
  }

  /** Lowering the case of a plain port keeps it plain. */
  lemma ToLowerIsPlain(port: string)
    requires ':' !in port && ']' !in port
    ensures ':' !in ToLower(port) && ']' !in ToLower(port)
  {
  }

  /** A port, if any, with its colon. */
  ghost predicate PortSuffix(port: string) {
    port == "" || (port[0] == ':' && Trimmed(port) && ':' !in port[1..] && ']' !in port[1..])
  }

  lemma StripLowered(body: string, port: string)
    requires PortSuffix(port) && ':' !in body && ']' !in body
    ensures StripPort(body + ToLower(port)) == body
  {
    if port == "" {
      assert body + ToLower(port) == body;
    } else {
      ToLowerIsPlain(port[1..]);
      assert ToLower(port) == [':'] + ToLower(port[1..]);
      assert body + ToLower(port) == body + [':'] + ToLower(port[1..]);
      StripAppended(body, ToLower(port[1..]));
    }
  }

  lemma NameOfDotted(dot: string, name: string)
    requires (dot == "" || dot == ".") && name != "" && name[0] != '.'
    ensures NameOf(dot + name) == name
  {
    assert dot == "." ==> (dot + name)[..1] == "." && (dot + name)[1..] == name;
    assert dot == "" ==> dot + name == name && name[..1][0] != '.';
  }

  lemma CleanPadded(pre: string, body: string, port: string, post: string)
    requires AllSpace(pre) && AllSpace(post) && Trimmed(body + port)
    ensures Clean(pre + (body + port) + post) == ToLower(body) + ToLower(port)
  {
    TrimSpacePadded(pre, body + port, post);
    ToLowerConcat(body, port);
  }

  /** White space around an entry, a dot in front, a port behind and the case of the letters
      make no difference. */
  lemma WrittenEntry(host: string, pre: string, dot: string, name: string, port: string, post: string)
    requires AllSpace(pre) && AllSpace(post) && PortSuffix(port)
    requires dot == "" || dot == "."
    requires name != "" && Trimmed(name) && name[0] != '.' && ':' !in name && ']' !in name
    ensures EntryMatches(host, pre + ((dot + name) + port) + post) <==>
              host == ToLower(name) || exists above: string :: host == above + "." + ToLower(name)
  {
    var body, lower := dot + name, ToLower(name);
    ToLowerConcat(dot, name);
    assert ToLower(dot) == dot;
    assert Trimmed(body + port);
    CleanPadded(pre, body, port, post);
    ToLowerIsPlain(name);
    StripLowered(dot + lower, port);
    NameOfDotted(dot, lower);
    Below(host, lower);
  }

  lemma Below(host: string, name: string)
    ensures HasSuffix(host, "." + name) <==> exists above: string :: host == above + "." + name
  {
    SuffixParts(host, "." + name);
    if above: string :| host == above + ("." + name) {
      assert host == above + "." + name;
    }
    if above: string :| host == above + "." + name {
      assert host == above + ("." + name);
    }
  }

  /** Every entry, however it is written: it is trimmed, lower-cased and stripped of a port.
      If a host is left, it stands for that host, a dot in front left aside, and for all
      hosts below it. */
  lemma EntryMeans(host: string, entry: string)
    ensures var p := ToLower(TrimSpace(entry));
            var name := TrimPrefix(StripPort(p), ".");
            EntryMatches(host, entry) <==>
              && p != ""
              && (StripPort(p) == "" ==> host == "")
              && (StripPort(p) != "" ==> host == name || exists above: string :: host == above + "." + name)
  {
    Below(host, TrimPrefix(StripPort(ToLower(TrimSpace(entry))), "."));
  }

  lemma CleanAddress(h: string, port: string)
    requires h == "" || !IsSpace(h[0])
    requires port == "" || !IsSpace(port[|port| - 1])
    ensures Clean(h + [':'] + port) == ToLower(h) + [':'] + ToLower(port)
  {
    assert Trimmed(h + [':'] + port);
    ToLowerConcat(h + [':'], port);
    ToLowerConcat(h, [':']);
    assert ToLower([':']) == [':'];
  }

  /** A URL's host as the list of exclusions has to name it: an IPv6 address in brackets. */
  function UrlHost(host: string): string { if ':' in host then "[" + host + "]" else host }

  /** The host that useProxy looks up for a canonical address: the URL's host in lower case,
      whether or not the URL names a port. */
  lemma HostOfAddress(scheme: string, host: string, port: string)
    requires host == "" || !IsSpace(host[0])
    requires port == "" || !IsSpace(port[|port| - 1])
    requires ':' !in port && ']' !in port
    ensures StripPort(Clean(CanonicalAddr(scheme, host, port))) == ToLower(UrlHost(host))
  {
    var h, p := UrlHost(host), if port != "" then port else DefaultPort(scheme);
    DefaultPortIsPlain(scheme);
    assert "[" + host + "]:" + p == "[" + host + "]" + [':'] + p;
    assert CanonicalAddr(scheme, host, port) == h + [':'] + p;
    CleanAddress(h, p);
    ToLowerIsPlain(p);
    StripAppended(ToLower(h), ToLower(p));
  }

  /** The decision for a URL: its host decides, whatever its scheme and port are. */
  lemma HostDecides(scheme: string, host: string, port: string, loopback: string -> bool, noProxy: string)
    requires '[' !in host && ']' !in host && (host == "" || !IsSpace(host[0]))
    requires ':' !in port && '[' !in port && ']' !in port && (port == "" || !IsSpace(port[|port| - 1]))
    ensures UsesProxy(CanonicalAddr(scheme, host, port), loopback, noProxy) <==>
            !IsLocal(host, loopback) && Proxied(ToLower(UrlHost(host)), noProxy)
  {
    SplitCanonical(scheme, host, port);
    HostOfAddress(scheme, host, port);
  }

  // ---- The list as a whole ------------------------------------------------------------------------

  /** Only which entries occur matters: not their order, and not how often. */
  lemma OrderIsIrrelevant(host: string, a: seq<string>, b: seq<string>)
    requires forall e :: e in a <==> e in b
    ensures Bypassed(host, a) <==> Bypassed(host, b)
  {
    AnyOfSame(Matcher(host), a, b);
    AnyOfSame(Matcher(host), b, a);
  }

  /** Extending the text adds up the hosts that bypass the proxy. */
  lemma TextsCompose(host: string, a: string, b: string)
    ensures Bypassed(host, Split(a + [','] + b, ',')) <==>
              Bypassed(host, Split(a, ',')) || Bypassed(host, Split(b, ','))
  {
    SplitConcat(a, b, ',');
    AnyConcat(Matcher(host), Split(a, ','), Split(b, ','));
  }

  /** Appending entries never brings a host back to the proxy, unless the text was the lone
      wildcard, which as one entry among others is an ordinary name. */
  lemma AppendingEntries(host: string, noProxy: string, more: string)
    ensures !Proxied(host, noProxy) && Proxied(host, noProxy + [','] + more) <==>
            noProxy == "*" && !CoveredBy(host, "*") && !Bypassed(host, Split(more, ','))
  {
    TextsCompose(host, noProxy, more);
    var longer := noProxy + [','] + more;
    assert longer[|noProxy|] == ',' && longer != "*";
    if noProxy == "*" {
      SplitAtom("*", ',');
      WildcardEntry(host);
      assert Any(Matcher(host), ["*"]) <==> Matcher(host)(["*"][0]);
    }
  }

  /** For instance the host "a" no longer bypasses the proxy when "*" becomes "*,b". */
  lemma WildcardInList(host: string, more: string)
    requires host == "a" && more == "b"
    ensures !Proxied(host, "*") && Proxied(host, "*" + [','] + more)
  {
    SplitAtom(more, ',');
    OneEntry(Matcher(host), more);
    assert Trimmed(more) && ToLower(more) == more;
    AppendingEntries(host, "*", more);
  }

  lemma WildcardEntry(host: string)
    ensures EntryMatches(host, "*") <==> CoveredBy(host, "*")
  {
    assert Trimmed("*");
    assert ToLower("*") == "*";
  }
}
