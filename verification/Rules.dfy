/**
 What the rule language means, without the matchers: networks as blocks of addresses, host
 patterns as names and their subdomains, lists as what they list. The first rule that covers
 a request decides it.
 */
module Rules {
  import opened Options
  import opened Net
  import opened Acl
  import Ascii

  // ---------------------------------------------------------------------------
  // Host patterns
  // ---------------------------------------------------------------------------

  /** A requested name without the dot it may end in; only one is taken away. */
  predicate IsBare(host: string, name: string) {
    host == name + "." || (host == name && (name == "" || name[|name| - 1] != '.'))
  }

  /** The names of a domain: itself and whatever ends in a dot and itself, in any case. */
  ghost predicate InDomain(name: string, domain: string) {
    var low := Ascii.Lower(domain);
    Ascii.Lower(name) == low || exists labels :: Ascii.Lower(name) == labels + "." + low
  }

  ghost predicate Names(p: HostPattern, name: string) {
    match p
    case Exact(exact) => Ascii.SameUpToCase(name, exact)
    case Suffix(domain) => InDomain(name, domain)
  }

  lemma BareIs(host: string, name: string)
    ensures IsBare(host, name) <==> StripDot(host) == name
  {
    if host != "" && host[|host| - 1] == '.' {
      assert host == host[..|host| - 1] + ".";
    }
    assert (name + ".")[..|name|] == name;
  }

  lemma LowerTail(s: string, k: nat)
    requires k <= |s|
    ensures Ascii.Lower(s)[k..] == Ascii.Lower(s[k..])
  {
  }

  lemma SubdomainIff(host: string, domain: string)
    ensures (&& |host| > |domain| && host[|host| - |domain| - 1] == '.'
             && Ascii.EqIgnoreCase(host[|host| - |domain|..], domain)) <==>
            exists labels :: Ascii.Lower(host) == labels + "." + Ascii.Lower(domain)
  {
    var h, low := Ascii.Lower(host), Ascii.Lower(domain);
    if |host| > |domain| {
      var k := |host| - |domain|;
      LowerTail(host, k);
      assert h[k - 1] == '.' <==> host[k - 1] == '.';
      if host[k - 1] == '.' && h[k..] == low {
        assert h == h[..k - 1] + "." + low;
      }
    }
    if exists labels :: h == labels + "." + low {
      var labels :| h == labels + "." + low;
      assert |h| == |labels| + 1 + |low|;
      var k := |host| - |domain|;
      assert h[k - 1] == '.' && h[k..] == low;
    }
  }

  /** A pattern matches exactly the names it names, with or without one dot at the end. */
  lemma HostMatchesIff(p: HostPattern, host: string)
    ensures HostMatches(p, host) <==> exists name :: IsBare(host, name) && Names(p, name)
  {
    var bare := StripDot(host);
    BareIs(host, bare);
    hide Ascii.Lower;
    match p
    case Exact(exact) => Ascii.FoldingIsCase(bare, exact);
    case Suffix(domain) => SubdomainIff(bare, domain);
    assert HostMatches(p, host) <==> Names(p, bare);
    forall name | IsBare(host, name) ensures name == bare {
      BareIs(host, name);
    }
  }

  // ---------------------------------------------------------------------------
  // Rules
  // ---------------------------------------------------------------------------

  /** The address lies in the aligned block around the network's own. */
  predicate InBlock(c: Cidr, ip: Ip) {
    var size := Pow2(TotalBits(c.isV6) - c.prefix);
    ip.V6? == c.isV6 && BlockStart(c.bits, size) <= Value(ip) < BlockStart(c.bits, size) + size
  }

  predicate InSomeBlock(cidrs: seq<Cidr>, ip: Ip) {
    exists c :: c in cidrs && InBlock(c, ip)
  }

  ghost predicate InSomeName(hosts: seq<HostPattern>, host: string) {
    exists p, name :: p in hosts && IsBare(host, name) && Names(p, name)
  }

  predicate InPorts(ports: Option<PortRange>, port: U16) {
    ports.Some? ==> ports.value.min <= port && port <= ports.value.max
  }

  /** What a rule says of a request. */
  ghost predicate Covers(r: Rule, q: Request) {
    && r.scope.Socks?
    && InSomeBlock(r.from.cidrs, q.who.ip) && InPorts(r.from.ports, q.who.port)
    && (|| InSomeBlock(r.to.cidrs, q.dest.ip)
        || (q.dest.host.Some? && InSomeName(r.to.hosts, q.dest.host.value)))
    && InPorts(r.to.ports, q.dest.port)
    && (|r.commands| > 0 ==> exists i :: 0 <= i < |r.commands| && r.commands[i] == q.command)
    && (|r.protocols| > 0 ==> exists i :: 0 <= i < |r.protocols| && r.protocols[i] == q.protocol)
    && (|r.methods| > 0 ==> exists i :: 0 <= i < |r.methods| && r.methods[i] == q.who.auth)
  }

  lemma BlocksIff(cidrs: seq<Cidr>, ip: Ip)
    ensures AnyContains(cidrs, ip) <==> InSomeBlock(cidrs, ip)
  {
    hide Contains, InBlock;
    forall c: Cidr ensures Contains(c, ip) <==> InBlock(c, ip) {
      ContainsIsInBlock(c, ip);
    }
    if AnyContains(cidrs, ip) {
      var i :| 0 <= i < |cidrs| && Contains(cidrs[i], ip);
      assert cidrs[i] in cidrs && InBlock(cidrs[i], ip);
    }
    if InSomeBlock(cidrs, ip) {
      var c :| c in cidrs && InBlock(c, ip);
      var i :| 0 <= i < |cidrs| && cidrs[i] == c;
      assert Contains(cidrs[i], ip);
    }
  }

  lemma ContainsIsInBlock(c: Cidr, ip: Ip)
    ensures Contains(c, ip) <==> InBlock(c, ip)
  {
    hide Contains, BlockStart;
    ContainsIsBlock(c, ip);
  }

  lemma NamesIff(hosts: seq<HostPattern>, host: string)
    ensures AnyHostMatches(hosts, host) <==> InSomeName(hosts, host)
  {
    hide HostMatches, IsBare, Names;
    if AnyHostMatches(hosts, host) {
      var i :| 0 <= i < |hosts| && HostMatches(hosts[i], host);
      HostMatchesIff(hosts[i], host);
      var name :| IsBare(host, name) && Names(hosts[i], name);
      assert hosts[i] in hosts;
    }
    if InSomeName(hosts, host) {
      var p, name :| p in hosts && IsBare(host, name) && Names(p, name);
      HostMatchesIff(p, host);
      var i :| 0 <= i < |hosts| && hosts[i] == p;
      assert HostMatches(hosts[i], host);
    }
  }

  /** The matcher of the program is what the rule says. */
  lemma CoversIff(r: Rule, q: Request)
    ensures MatchesSocks(r, q) <==> Covers(r, q)
  {
    hide AnyContains, InSomeBlock, AnyHostMatches, InSomeName;
    BlocksIff(r.from.cidrs, q.who.ip);
    BlocksIff(r.to.cidrs, q.dest.ip);
    if q.dest.host.Some? {
      NamesIff(r.to.hosts, q.dest.host.value);
    }
  }

  /** Rule `i` is the first that covers the request. */
  ghost predicate FirstCovers(rules: seq<Rule>, q: Request, i: nat) {
    i < |rules| && Covers(rules[i], q) && forall j :: 0 <= j < i ==> !Covers(rules[j], q)
  }

  /**
   A request is decided by the first rule that covers it, with that rule's verdict, line, name
   and bandwidth; a request that no rule covers is blocked by none.
   */
  lemma {:induction false} FirstCoveringRuleDecides(rules: seq<Rule>, q: Request)
    ensures var d := EvaluateSocks(rules, q);
            && (forall i: nat :: FirstCovers(rules, q, i) ==>
                  && d.verdict == rules[i].verdict && d.sourceLine == Some(rules[i].sourceLine)
                  && d.ruleName == rules[i].name && d.bandwidth == rules[i].bandwidth)
            && ((forall i :: 0 <= i < |rules| ==> !Covers(rules[i], q)) ==>
                  d.verdict == Block && d.sourceLine.None? && d.ruleName.None? && d.bandwidth.None?)
    ensures (exists i :: 0 <= i < |rules| && Covers(rules[i], q)) ==> exists i: nat :: FirstCovers(rules, q, i)
  {
    hide MatchesSocks, Covers;
    if rules != [] {
      CoversIff(rules[0], q);
      var rest := rules[1..];
      FirstCoveringRuleDecides(rest, q);
      assert forall i :: 0 <= i < |rest| ==> rest[i] == rules[i + 1];
      if Covers(rules[0], q) {
        assert FirstCovers(rules, q, 0);
      } else {
        RestCovers(rules, q);
      }
    }
  }

  lemma RestCovers(rules: seq<Rule>, q: Request)
    requires rules != [] && !Covers(rules[0], q)
    ensures forall i: nat :: FirstCovers(rules, q, i) <==> i > 0 && FirstCovers(rules[1..], q, i - 1)
    ensures forall i: nat :: FirstCovers(rules[1..], q, i) ==> FirstCovers(rules, q, i + 1)
    ensures (exists i :: 0 <= i < |rules| && Covers(rules[i], q)) ==>
              exists i :: 0 <= i < |rules| - 1 && Covers(rules[1..][i], q)
  {
    hide Covers;
    var rest := rules[1..];
    forall i: nat ensures FirstCovers(rules, q, i) <==> i > 0 && FirstCovers(rest, q, i - 1) {
      if FirstCovers(rules, q, i) {
        assert rest[i - 1] == rules[i];
        assert forall j :: 0 <= j < i - 1 ==> rest[j] == rules[j + 1];
      }
      if i > 0 && FirstCovers(rest, q, i - 1) {
        assert rules[i] == rest[i - 1];
        assert forall j :: 0 < j < i ==> rules[j] == rest[j - 1];
      }
    }
    forall i: nat | FirstCovers(rest, q, i) ensures FirstCovers(rules, q, i + 1) {
      assert rules[i + 1] == rest[i];
      assert forall j :: 0 < j < i + 1 ==> rules[j] == rest[j - 1];
    }
    if exists i :: 0 <= i < |rules| && Covers(rules[i], q) {
      var i :| 0 <= i < |rules| && Covers(rules[i], q);
      assert rest[i - 1] == rules[i];
    }
  }
}
