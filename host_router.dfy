/**
  lib/host-router.js: routes by hostname and port on top of the match engine.
  A pattern without `*` is an exact-table key `host:port` (with an alias for
  the root-domain form `host.:port`); a pattern with `*` is a trie route whose
  parts are the hostname labels in reverse order followed by the port, each
  `*` a parameter. A request's key is `hostname:port`; its dynamic keys are
  its labels reversed followed by its port.
 */
module HostRouting {
  import opened Wrappers
  import opened MatchEngine
  import SearchProperties
  import Text

  // The pattern grammar of `validRoute`, written out. The expression is
  // case-insensitive, so letters of either case are accepted.

  predicate IsAlpha(c: char) { 'a' <= c <= 'z' || 'A' <= c <= 'Z' }

  predicate IsDigit(c: char) { '0' <= c <= '9' }

  /** 1 to 63 letters, digits and hyphens, ending in a letter or digit. */
  predicate LabelBody(l: string)
  {
    && 1 <= |l| <= 63
    && (IsAlpha(l[|l| - 1]) || IsDigit(l[|l| - 1]))
    && forall i :: 0 <= i < |l| ==> IsAlpha(l[i]) || IsDigit(l[i]) || l[i] == '-'
  }

  /** A label before a `.`: `*`, or a label starting with a letter or digit. */
  predicate InnerLabel(l: string)
  {
    l == "*" || (LabelBody(l) && (IsAlpha(l[0]) || IsDigit(l[0])))
  }

  /** The last label: `*`, or a label starting with a letter. */
  predicate TopLabel(l: string)
  {
    l == "*" || (LabelBody(l) && IsAlpha(l[0]))
  }

  predicate DnsName(h: string)
  {
    var labels := Text.Split(h, '.');
    && (forall i :: 0 <= i < |labels| - 1 ==> InnerLabel(labels[i]))
    && TopLabel(labels[|labels| - 1])
  }

  /** `25[0-5]|2[0-4]\d|1\d\d|[1-9]\d|\d`: 0 to 255 without leading zeros. */
  predicate Octet(o: string)
  {
    Text.IsDigits(o) && |o| <= 3 && (|o| == 1 || o[0] != '0') && Text.DecimalValue(o) <= 255
  }

  predicate IPv4(h: string)
  {
    var octets := Text.Split(h, '.');
    |octets| == 4 && forall i :: 0 <= i < 4 ==> Octet(octets[i])
  }

  /** `\*|[1-9]\d*|0`, the `*` only where `wild` allows it. */
  predicate PortPattern(p: string, wild: bool)
  {
    (wild && p == "*") || (Text.IsDigits(p) && (p == "0" || p[0] != '0'))
  }

  /**
    `validRoute`: a hostname part of 1 to 254 characters, optionally followed
    by `:` and a port; the hostname is a DNS-style name whose labels may be
    `*`, or a dotted-quad address, which takes no `*` port.
   */
  predicate ValidRoute(s: string)
  {
    var parts := Text.Split(s, ':');
    var host := parts[0];
    && |parts| <= 2
    && 1 <= |host| <= 254
    && ((DnsName(host) && (|parts| == 1 || PortPattern(parts[1], true)))
        || (IPv4(host) && (|parts| == 1 || PortPattern(parts[1], false))))
  }

  // What `host()` derives from a pattern.

  /** The port text `host()` appends when the pattern has none: `':' + defaultPort`. */
  function PortSuffix(defaultPort: nat): string
  {
    ":" + Text.DecimalText(defaultPort)
  }

  /** The pattern with the default port appended when it has no `:`, lower-cased. */
  function Canonical(hostport: string, defaultPort: nat): string
  {
    Text.Lower(if ':' in hostport then hostport else hostport + PortSuffix(defaultPort))
  }

  /** The hostname of a pattern, as written. */
  function HostPart(hostport: string): string
  {
    Text.Split(hostport, ':')[0]
  }

  /** The port of a pattern, as written, or the default port's text. */
  function PortPart(hostport: string, defaultPort: nat): string
  {
    var parts := Text.Split(hostport, ':');
    if |parts| > 1 then parts[1] else Text.DecimalText(defaultPort)
  }

  /** `+port > 65535`, which is false for `*` (`NaN`). */
  predicate PortTooLarge(port: string)
  {
    Text.IsDigits(port) && Text.DecimalValue(port) > 65535
  }

  /** A pattern part: `*` becomes a parameter (`undefined`), anything else a literal. */
  function AsPart(s: string): (p: Part<char>)
    ensures p.None? <==> s == "*"
  {
    if s == "*" then None else Some(s)
  }

  /** The trie route of a wildcard pattern: the labels reversed, then the port. */
  function WildParts(hostname: string, port: string): (r: seq<Part<char>>)
    ensures |r| == |Text.Split(hostname, '.')| + 1
  {
    PatternParts(Text.Split(hostname, '.'), port)
  }

  /** The route of a pattern's labels and port: the labels reversed, then the port, each `*` a parameter. */
  function PatternParts(pattern: seq<string>, port: string): (r: seq<Part<char>>)
    ensures |r| == |pattern| + 1
  {
    var keys := Text.Reverse(pattern) + [port];
    seq(|keys|, i requires 0 <= i < |keys| => AsPart(keys[i]))
  }

  // The request side.

  /** Where a request is going, as the URL parser reports it. */
  datatype Location = Location(hostname: string, port: string)

  /** `wontMatch`: an empty hostname or a bracketed (IPv6) one. */
  predicate WontMatch(s: string)
  {
    s == [] || s[0] == '['
  }

  /** `notIP`: no `.`, a trailing `.`, or a character above `@` after the last `.`. */
  predicate NotIP(s: string)
  {
    var i := Text.LastIndexOf(s, '.');
    i == -1 || i == |s| - 1 || s[i + 1] as int > 64
  }

  /** `getStaticKey`: `''` for an unlocatable request, `.0` for an unsupported host, else `hostname:port`. */
  function StaticKey(location: Option<Location>): (key: string)
    ensures key == [] <==> location.None?
    ensures location.Some? && WontMatch(location.value.hostname) ==> key == ".0"
    ensures location.Some? && !WontMatch(location.value.hostname) ==>
      key == location.value.hostname + ":" + location.value.port
  {
    match location
    case None => ""
    case Some(loc) => if WontMatch(loc.hostname) then ".0" else loc.hostname + ":" + loc.port
  }

  /** The labels `getDynamicKeys` keeps: a trailing empty label (the root domain) is dropped. */
  function Labels(hostname: string): (labels: seq<string>)
    ensures |labels| <= |Text.Split(hostname, '.')|
  {
    var all := Text.Split(hostname, '.');
    if all[|all| - 1] == [] then all[..|all| - 1] else all
  }

  /**
    `getDynamicKeys`: none for an IP-looking hostname, otherwise the labels
    reversed followed by the port. A key without `:` has no port; the source
    then pushes `undefined`, which no edge accepts, and the model pushes the
    empty key, which no host route has either.
   */
  function DynamicKeys(key: string): Option<seq<string>>
  {
    var parts := Text.Split(key, ':');
    var hostname := parts[0];
    var port := if |parts| > 1 then parts[1] else "";
    if !NotIP(hostname) then None
    else Some(Text.Reverse(Labels(hostname)) + [port])
  }

  /** A pattern label or port accepts a request's label or port: equal, or `*` against a non-empty one. */
  predicate LabelMatches(pattern: string, given: string)
  {
    pattern == given || (pattern == "*" && given != [])
  }

  /** A wildcard pattern's host and port match a request's: label for label, so `*` stands for exactly one label. */
  predicate HostMatches(hostname: string, port: string, reqHost: string, reqPort: string)
  {
    var pattern := Text.Split(hostname, '.');
    var labels := Labels(reqHost);
    && |pattern| == |labels|
    && (forall i :: 0 <= i < |pattern| ==> LabelMatches(pattern[i], labels[i]))
    && LabelMatches(port, reqPort)
  }

  /**
    The trie route of a wildcard pattern matches a request's dynamic keys
    exactly when the pattern matches the request label for label.
   */
  lemma WildcardMatch(hostname: string, port: string, reqHost: string, reqPort: string)
    requires ':' !in reqHost && ':' !in reqPort && NotIP(reqHost)
    ensures DynamicKeys(reqHost + ":" + reqPort).Some?
    ensures var keys := DynamicKeys(reqHost + ":" + reqPort).value;
      SearchProperties.MatchesFrom(WildParts(hostname, port), keys, 0, true)
      <==> HostMatches(hostname, port, reqHost, reqPort)
  {
    SplitFirst(reqHost, reqPort);
    assert DynamicKeys(reqHost + ":" + reqPort).value == Text.Reverse(Labels(reqHost)) + [reqPort];
    var pattern := Text.Split(hostname, '.');
    if SearchProperties.MatchesFrom(PatternParts(pattern, port), Text.Reverse(Labels(reqHost)) + [reqPort], 0, true) {
      RouteMatchSound(pattern, port, Labels(reqHost), reqPort);
    }
    if HostMatches(hostname, port, reqHost, reqPort) {
      RouteMatchComplete(pattern, port, Labels(reqHost), reqPort);
    }
  }

  /** A wildcard route that matches the reversed labels and the port matches them label for label. */
  lemma RouteMatchSound(pattern: seq<string>, port: string, labels: seq<string>, reqPort: string)
    requires SearchProperties.MatchesFrom(PatternParts(pattern, port), Text.Reverse(labels) + [reqPort], 0, true)
    ensures |pattern| == |labels|
    ensures forall i :: 0 <= i < |pattern| ==> LabelMatches(pattern[i], labels[i])
    ensures LabelMatches(port, reqPort)
  {
    var r := PatternParts(pattern, port);
    var keys := Text.Reverse(labels) + [reqPort];
    assert |pattern| == |labels|;
    forall i | 0 <= i < |pattern| ensures LabelMatches(pattern[i], labels[i]) {
      AdmittedAt(r, keys, |pattern| - 1 - i);
      LabelSound(pattern, port, labels, reqPort, i);
    }
    PartAt(pattern, port, |pattern|);
    KeyAt(labels, reqPort, |pattern|);
    AdmittedAt(r, keys, |pattern|);
    AdmitsLabel(port, reqPort);
  }

  /** A pattern that matches label for label gives a route that matches the reversed labels and the port. */
  lemma RouteMatchComplete(pattern: seq<string>, port: string, labels: seq<string>, reqPort: string)
    requires |pattern| == |labels|
    requires forall i :: 0 <= i < |pattern| ==> LabelMatches(pattern[i], labels[i])
    requires LabelMatches(port, reqPort)
    ensures SearchProperties.MatchesFrom(PatternParts(pattern, port), Text.Reverse(labels) + [reqPort], 0, true)
  {
    var r := PatternParts(pattern, port);
    var keys := Text.Reverse(labels) + [reqPort];
    forall j | 0 <= j < |r| ensures SearchProperties.Admits(r[j], keys[j], true) {
      PartAt(pattern, port, j);
      KeyAt(labels, reqPort, j);
      if j < |pattern| {
        AdmitsLabel(pattern[|pattern| - 1 - j], labels[|pattern| - 1 - j]);
      } else {
        AdmitsLabel(port, reqPort);
      }
    }
  }

  /** Label `i` of a pattern whose route admits the request's key at the mirrored position matches label `i` of the request. */
  lemma LabelSound(pattern: seq<string>, port: string, labels: seq<string>, reqPort: string, i: nat)
    requires |pattern| == |labels| && i < |pattern|
    requires SearchProperties.Admits(PatternParts(pattern, port)[|pattern| - 1 - i], (Text.Reverse(labels) + [reqPort])[|pattern| - 1 - i], true)
    ensures LabelMatches(pattern[i], labels[i])
  {
    MirroredPart(pattern, port, i);
    Text.ReverseThenAt(labels, reqPort, i);
    AdmitsLabel(pattern[i], labels[i]);
  }

  /** The route's part at the mirrored position of label `i` is built from that label. */
  lemma MirroredPart(pattern: seq<string>, port: string, i: nat)
    requires i < |pattern|
    ensures PatternParts(pattern, port)[|pattern| - 1 - i] == AsPart(pattern[i])
  {
    Text.ReverseThenAt(pattern, port, i);
  }

  lemma AdmittedAt(r: seq<Part<char>>, keys: seq<string>, j: nat)
    requires SearchProperties.MatchesFrom(r, keys, 0, true) && j < |r|
    ensures SearchProperties.Admits(r[j], keys[j], true)
  {
    assert SearchProperties.Admits(r[j], keys[0 + j], true);
  }

  /** Part `j` of a pattern's route: a label counted from the end, or the port. */
  lemma PartAt(pattern: seq<string>, port: string, j: nat)
    requires j <= |pattern|
    ensures PatternParts(pattern, port)[j] == if j < |pattern| then AsPart(pattern[|pattern| - 1 - j]) else AsPart(port)
  {
    if j < |pattern| {
      Text.ReverseAt(pattern, j);
      assert (Text.Reverse(pattern) + [port])[j] == Text.Reverse(pattern)[j];
    } else {
      assert (Text.Reverse(pattern) + [port])[j] == port;
    }
  }

  /** Key `j` of a request: a label counted from the end, or the port. */
  lemma KeyAt(labels: seq<string>, reqPort: string, j: nat)
    requires j <= |labels|
    ensures (Text.Reverse(labels) + [reqPort])[j] == if j < |labels| then labels[|labels| - 1 - j] else reqPort
  {
    if j < |labels| {
      Text.ReverseAt(labels, j);
    }
  }

  /** A part built from a pattern label admits a request label exactly when the label matches. */
  lemma AdmitsLabel(pattern: string, given: string)
    ensures SearchProperties.Admits(AsPart(pattern), given, true) <==> LabelMatches(pattern, given)
  {
  }

  /** Splitting `hostname:port` on `:` gives the hostname first, and the port after it when it has no `:`. */
  lemma SplitFirst(hostname: string, port: string)
    requires ':' !in hostname
    ensures var parts := Text.Split(hostname + ":" + port, ':'); |parts| >= 2 && parts[0] == hostname
    ensures ':' !in port ==> Text.Split(hostname + ":" + port, ':') == [hostname, port]
  {
    var s := hostname + ":" + port;
    assert s[|hostname|] == ':';
    var k := Text.IndexOf(s, ':');
    assert s[..|hostname|] == hostname;
    assert k == |hostname|;
    assert s[k + 1..] == port;
    if ':' !in port {
      assert Text.Split(port, ':') == [port];
    }
  }

  /** Lower-casing keeps every `:` and `.` where it is and adds none. */
  lemma LowerKeepsSeparators(s: string)
    ensures forall i :: 0 <= i < |s| ==> (Text.Lower(s)[i] == ':' <==> s[i] == ':')
    ensures forall i :: 0 <= i < |s| ==> (Text.Lower(s)[i] == '.' <==> s[i] == '.')
    ensures ':' in Text.Lower(s) <==> ':' in s
  {
    if ':' in Text.Lower(s) {
      var i :| 0 <= i < |s| && Text.Lower(s)[i] == ':';
      assert s[i] == ':';
    }
    if ':' in s {
      var i :| 0 <= i < |s| && s[i] == ':';
      assert Text.Lower(s)[i] == ':';
    }
  }

  /**
    A valid pattern, once canonical, splits on `:` into exactly its lower-cased
    hostname and port, so `const [hostname, port] = hostport.split(':')` reads
    both.
   */
  lemma CanonicalParts(hostport: string, defaultPort: nat)
    requires ValidRoute(hostport)
    ensures Text.Split(Canonical(hostport, defaultPort), ':')
         == [Text.Lower(HostPart(hostport)), Text.Lower(PortPart(hostport, defaultPort))]
  {
    var parts := Text.Split(hostport, ':');
    var host := parts[0];
    var port := PortPart(hostport, defaultPort);
    assert ':' !in host;
    assert ':' !in port by {
      if |parts| == 1 {
        assert forall i :: 0 <= i < |port| ==> '0' <= port[i] <= '9';
      }
    }
    var raw := if ':' in hostport then hostport else hostport + PortSuffix(defaultPort);
    assert raw == host + ":" + port by {
      if |parts| == 1 {
        assert ':' !in hostport;
        assert hostport == host;
      } else {
        Text.JoinSplit(hostport, ':');
        assert Text.Join(parts, ':') == host + [':'] + Text.Join(parts[1..], ':');
        assert parts[1..] == [parts[1]];
        Text.SplitCount(hostport, ':');
        assert ':' in hostport by {
          if ':' !in hostport {
            Text.CountAbsent(hostport, ':');
          }
        }
      }
    }
    Text.LowerAppend(host + ":", port);
    Text.LowerAppend(host, ":");
    assert Text.Lower(":") == ":";
    LowerKeepsSeparators(host);
    LowerKeepsSeparators(port);
    SplitFirst(Text.Lower(host), Text.Lower(port));
  }

  /** `notIP` sees the same thing in a hostname and its lower-cased form. */
  lemma NotIPLower(s: string)
    ensures NotIP(Text.Lower(s)) <==> NotIP(s)
  {
    LowerKeepsSeparators(s);
    var i := Text.LastIndexOf(s, '.');
    if i >= 0 {
      Text.LastIndexOfIs(Text.Lower(s), '.', i);
    } else {
      assert '.' !in Text.Lower(s);
    }
  }

  /**
    A static pattern gets its root-domain alias exactly when its hostname is
    not a dotted-quad address: the last label of a DNS-style name starts with
    a letter, the last octet with a digit.
   */
  lemma AliasUnlessIPv4(host: string)
    requires DnsName(host) || IPv4(host)
    requires '*' !in host
    ensures NotIP(host) <==> !IPv4(host)
  {
    var labels := Text.Split(host, '.');
    if '.' in host {
      Text.SplitLast(host, '.');
      var last := labels[|labels| - 1];
      var i := Text.LastIndexOf(host, '.');
      assert last == host[i + 1..];
      if IPv4(host) {
        assert Octet(labels[3]);
        assert host[i + 1] == last[0];
      } else {
        assert host[i + 1..] == last;
        assert host[i + 1] == last[0];
      }
    } else {
      assert labels == [host];
    }
  }

  /** A request to a dotted-quad address is never matched against wildcard patterns. */
  lemma AddressHasNoKeys(host: string, port: string)
    requires IPv4(host)
    ensures DynamicKeys(host + ":" + port).None?
  {
    var octets := Text.Split(host, '.');
    Text.JoinSplit(host, '.');
    OctetsHaveNo(octets, ':');
    OctetsHaveNo(octets, '*');
    SplitFirst(host, port);
    AliasUnlessIPv4(host);
  }

  /** Joined octets hold no character other than digits and dots. */
  lemma OctetsHaveNo(octets: seq<string>, c: char)
    requires forall i :: 0 <= i < |octets| ==> Octet(octets[i])
    requires c != '.' && !IsDigit(c)
    ensures c !in Text.Join(octets, '.')
    decreases |octets|
  {
    if |octets| > 1 {
      OctetsHaveNo(octets[1..], c);
      assert Octet(octets[0]);
    } else if |octets| == 1 {
      assert Octet(octets[0]);
    }
  }

  /** The key of an unsupported host, `.0`, has no dynamic keys, so it reaches the missing handler. */
  lemma UnsupportedHostNoKeys(key: string)
    requires key == ".0"
    ensures DynamicKeys(key).None?
  {
    assert Text.Split(key, ':') == [key];
    assert Text.LastIndexOf(key, '.') == 0 by {
      Text.LastIndexOfIs(key, '.', 0);
    }
  }

  /**
    The host router: the engine's tables keyed by host strings, and the
    default port `host()` appends (the source keeps it in a `WeakMap` beside
    the router).
   */
  class HostRouter<H> {
    const engine: Router<char, H>
    const defaultPort: nat

    ghost predicate Valid()
      reads this, engine
    {
      engine.Valid() && defaultPort <= 65535
    }

    /** The router with empty tables, a 502 handler for unmatched hosts, and a checked default port. */
    constructor(defaultPort: nat, badGateway: H)
      requires defaultPort <= 65535
      ensures Valid() && fresh(engine)
      ensures this.defaultPort == defaultPort
      ensures engine.statics == map[] && engine.missing == badGateway && !engine.changed
      ensures forall r :: RouteAt(engine.nodes, r) == None
    {
      this.defaultPort := defaultPort;
      engine := new Router(badGateway);
    }

    /**
      `host(hostport, handler)`: an invalid pattern or a port above 65535
      throws and registers nothing; a static pattern adds `host:port`, and its
      alias `host.:port` unless the hostname is a dotted-quad address; a
      wildcard pattern adds its trie route; a duplicate throws.
     */
    method Host(hostport: string, handler: H) returns (thrown: Option<Thrown>)
      requires Valid()
      modifies engine`statics, engine`nodes
      ensures Valid()
      ensures !ValidRoute(hostport) ==> thrown == Some(TypeError("Invalid hostname: " + hostport))
      ensures ValidRoute(hostport) ==>
        var c := Canonical(hostport, defaultPort);
        var host := Text.Lower(HostPart(hostport));
        var port := Text.Lower(PortPart(hostport, defaultPort));
        var alias := host + ".:" + port;
        && (PortTooLarge(port) ==> thrown == Some(RangeError("Invalid port number: " + port)))
        && (!PortTooLarge(port) && '*' !in c ==>
              && (thrown.None? <==> c !in old(engine.statics))
              && (thrown.Some? ==> thrown == Some(TypeError("Duplicate host: " + c)))
              && (thrown.None? ==>
                    && engine.statics.Keys == old(engine.statics).Keys + {c} + (if NotIP(host) then {alias} else {})
                    && engine.statics[c] == handler
                    && (NotIP(host) && alias !in old(engine.statics) ==> engine.statics[alias] == handler)))
        && (!PortTooLarge(port) && '*' in c ==>
              && (thrown.None? <==> RouteAt(old(engine.nodes), WildParts(host, port)).None?)
              && (thrown.Some? ==> thrown == Some(TypeError("Duplicate host: " + c)))
              && forall r :: RouteAt(engine.nodes, r)
                   == if thrown.None? && r == WildParts(host, port) then Some(handler) else RouteAt(old(engine.nodes), r))
      ensures thrown.Some? ==> engine.statics == old(engine.statics)
      ensures thrown.Some? ==> forall r :: RouteAt(engine.nodes, r) == RouteAt(old(engine.nodes), r)
      ensures forall k :: k in old(engine.statics) ==> k in engine.statics && engine.statics[k] == old(engine.statics)[k]
    {
      if !ValidRoute(hostport) {
        return Some(TypeError("Invalid hostname: " + hostport));
      }
      var hp := hostport;
      if ':' !in hp {
        hp := hp + PortSuffix(defaultPort);
      }
      hp := Text.Lower(hp);
      CanonicalParts(hostport, defaultPort);
      var parts := Text.Split(hp, ':');
      var hostname, port := parts[0], parts[1];
      if PortTooLarge(port) {
        return Some(RangeError("Invalid port number: " + port));
      }
      thrown := Register(hp, hostname, port, handler);
    }

    /**
      The registration half of `host()` (lib/host-router.js:36-46) for the
      canonical pattern `c` with hostname `host` and port `port`.
     */
    method Register(c: string, host: string, port: string, handler: H) returns (thrown: Option<Thrown>)
      requires Valid()
      modifies engine`statics, engine`nodes
      ensures Valid()
      ensures thrown.Some? ==> thrown == Some(TypeError("Duplicate host: " + c))
      ensures thrown.Some? ==> engine.statics == old(engine.statics)
      ensures thrown.Some? ==> forall r :: RouteAt(engine.nodes, r) == RouteAt(old(engine.nodes), r)
      ensures '*' !in c ==>
        var alias := host + ".:" + port;
        && engine.nodes == old(engine.nodes)
        && (thrown.None? <==> c !in old(engine.statics))
        && (thrown.None? ==>
              && engine.statics.Keys == old(engine.statics).Keys + {c} + (if NotIP(host) then {alias} else {})
              && engine.statics[c] == handler
              && (NotIP(host) && alias !in old(engine.statics) ==> engine.statics[alias] == handler))
      ensures '*' in c ==>
        && engine.statics == old(engine.statics)
        && (thrown.None? <==> RouteAt(old(engine.nodes), WildParts(host, port)).None?)
        && forall r :: RouteAt(engine.nodes, r)
             == if thrown.None? && r == WildParts(host, port) then Some(handler) else RouteAt(old(engine.nodes), r)
      ensures forall k :: k in old(engine.statics) ==> k in engine.statics && engine.statics[k] == old(engine.statics)[k]
    {
      if '*' !in c {
        var ok := AddStatic(c, host, port, handler);
        if ok {
          return None;
        }
      } else {
        var ok := engine.AddDynamicRoute(WildParts(host, port), handler);
        if ok {
          return None;
        }
      }
      return Some(TypeError("Duplicate host: " + c));
    }

    /**
      The static branch of `host()` (lib/host-router.js:36-41): adds the key
      `c`, then on success the alias `host.:port` unless the hostname looks
      like an address; an alias already present is left as it is.
     */
    method AddStatic(c: string, host: string, port: string, handler: H) returns (ok: bool)
      modifies engine`statics
      ensures ok <==> c !in old(engine.statics)
      ensures !ok ==> engine.statics == old(engine.statics)
      ensures ok ==>
        var alias := host + ".:" + port;
        && engine.statics.Keys == old(engine.statics).Keys + {c} + (if NotIP(host) then {alias} else {})
        && engine.statics[c] == handler
        && (NotIP(host) && alias !in old(engine.statics) ==> engine.statics[alias] == handler)
      ensures forall k :: k in old(engine.statics) ==> k in engine.statics && engine.statics[k] == old(engine.statics)[k]
    {
      ok := engine.AddStaticRoute(c, handler);
      if ok && NotIP(host) {
        var aliased := engine.AddStaticRoute(host + ".:" + port, handler);
      }
    }

    /** `noHost(handler)`: replaces the 502 handler once; a second call throws and changes nothing. */
    method NoHost(handler: H) returns (thrown: Option<Thrown>)
      modifies engine`missing, engine`changed
      ensures thrown.None? <==> !old(engine.changed)
      ensures thrown.Some? ==> thrown == Some(TypeError("A noHost handler was already set on this router"))
      ensures engine.changed
      ensures engine.missing == if thrown.None? then handler else old(engine.missing)
    {
      var ok := engine.SetMissingRoute(handler);
      if !ok {
        return Some(TypeError("A noHost handler was already set on this router"));
      }
      return None;
    }

    /**
      The request handler: an unlocatable request is destroyed, an exact
      `host:port` wins, otherwise the trie is searched with the reversed
      labels and the port. A handler found in the trie belongs to a
      registered wildcard route matching those keys.
     */
    method Route(location: Option<Location>) returns (o: Outcome<H>)
      requires Valid()
      ensures o.Destroyed? <==> location.None?
      ensures var key := StaticKey(location);
        && (key != [] && key in engine.statics ==> o == Handled(engine.statics[key]))
        && (key != [] && key !in engine.statics && o.Handled? ==>
              && DynamicKeys(key).Some?
              && (exists r :: RouteAt(engine.nodes, r) == Some(o.handler)
                   && SearchProperties.MatchesFrom(r, DynamicKeys(key).value, 0, false))
              && (SearchProperties.NoEmptyKey(DynamicKeys(key).value) ==>
                    exists r :: RouteAt(engine.nodes, r) == Some(o.handler)
                      && SearchProperties.MatchesFrom(r, DynamicKeys(key).value, 0, true)))
        && (key != [] && key !in engine.statics && DynamicKeys(key).None? ==> o == Missing(engine.missing))
        && (key != [] && key !in engine.statics && !o.Handled? ==> o == Missing(engine.missing))
    {
      var key := StaticKey(location);
      o := engine.Lookup(key, DynamicKeys);
      if key != [] && key !in engine.statics && o.Handled? {
        var keys := DynamicKeys(key).value;
        SearchProperties.SearchSound(engine.nodes, keys, 0, 0, false);
        if SearchProperties.NoEmptyKey(keys) {
          SearchProperties.NoEmptyKeyAgrees(engine.nodes, keys, 0, 0);
          SearchProperties.SearchSound(engine.nodes, keys, 0, 0, true);
        }
      }
    }
  }

  /** `new HostRouter({ defaultPort })`: a port that is not an integer in 0..65535 throws. */
  method NewHostRouter<H>(defaultPort: int, badGateway: H) returns (r: Result<HostRouter<H>, Thrown>)
    ensures r.Success? <==> 0 <= defaultPort <= 65535
    ensures r.Failure? ==> r.error == TypeError("Invalid default port: " + (if defaultPort < 0 then "-" + Text.DecimalText(-defaultPort) else Text.DecimalText(defaultPort)))
    ensures r.Success? ==> fresh(r.value) && fresh(r.value.engine) && r.value.Valid() && r.value.defaultPort == defaultPort
    ensures r.Success? ==> r.value.engine.statics == map[] && r.value.engine.missing == badGateway
  {
    if defaultPort < 0 || defaultPort > 65535 {
      var text := if defaultPort < 0 then "-" + Text.DecimalText(-defaultPort) else Text.DecimalText(defaultPort);
      return Failure(TypeError("Invalid default port: " + text));
    }
    var router := new HostRouter(defaultPort, badGateway);
    return Success(router);
  }
}
