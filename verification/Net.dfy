/** Address selectors of access rules: networks, port ranges and host patterns. */
module Net {
  import opened Options
  import Ascii

  type U16 = x: nat | x < 0x1_0000
  type U32 = x: nat | x < 0x1_0000_0000
  type U128 = x: nat | x < 0x1_0000_0000_0000_0000_0000_0000_0000_0000

  datatype Ip = V4(v4: U32) | V6(v6: U128)

  /** Addresses of both families are kept as one integer next to the family flag. */
  datatype CidrBits = CidrBits(bits: U128, prefix: nat, isV6: bool)

  function TotalBits(isV6: bool): nat {
    if isV6 then 128 else 32
  }

  type Cidr = c: CidrBits | c.prefix <= TotalBits(c.isV6) && (c.isV6 || c.bits < 0x1_0000_0000)
    witness CidrBits(0, 0, false)

  function Pow2(n: nat): (p: nat)
    ensures p > 0
  {
    if n == 0 then 1 else 2 * Pow2(n - 1)
  }

  function Value(addr: Ip): nat {
    match addr case V4(v4) => v4 case V6(v6) => v6
  }

  /** Compares the network part by shifting the host bits out of both sides. */
  predicate Contains(c: Cidr, addr: Ip) {
    addr.V6? == c.isV6 &&
    (c.prefix == 0 ||
     var shift := TotalBits(c.isV6) - c.prefix;
     Value(addr) / Pow2(shift) == c.bits / Pow2(shift))
  }

  /** The first address of the aligned block of `size` addresses around `x`. */
  function BlockStart(x: nat, size: nat): nat
    requires size > 0
  {
    x - x % size
  }

  lemma Scaled(q: nat, r: nat, size: nat)
    requires q < r
    ensures (q + 1) * size <= r * size
  {
  }

  lemma SameBlock(x: nat, y: nat, size: nat)
    requires size > 0
    ensures x / size == y / size <==> BlockStart(y, size) <= x < BlockStart(y, size) + size
  {
    var qx, qy, rx, ry := x / size, y / size, x % size, y % size;
    assert x == qx * size + rx && y == qy * size + ry;
    assert BlockStart(y, size) == qy * size;
    if qx < qy {
      Scaled(qx, qy, size);
    } else if qx > qy {
      Scaled(qy, qx, size);
    }
  }

  lemma Pow2Families()
    ensures Pow2(32) == 0x1_0000_0000
    ensures Pow2(128) == 0x1_0000_0000_0000_0000_0000_0000_0000_0000
  {
    Pow2Square(8, 0x100);
    Pow2Square(16, 0x1_0000);
    Pow2Square(32, 0x1_0000_0000);
    Pow2Square(64, 0x1_0000_0000_0000_0000);
  }

  lemma Pow2Square(n: nat, v: nat)
    requires Pow2(n) == v
    ensures Pow2(2 * n) == v * v
  {
    Pow2Add(n, n);
  }

  lemma {:induction false} Pow2Add(a: nat, b: nat)
    ensures Pow2(a + b) == Pow2(a) * Pow2(b)
  {
    if a > 0 {
      Pow2Add(a - 1, b);
    }
  }

  /** A network is a block of 2^(host bits) consecutive addresses of its own family. */
  lemma ContainsIsBlock(c: Cidr, addr: Ip)
    ensures var size := Pow2(TotalBits(c.isV6) - c.prefix);
            Contains(c, addr) <==>
            addr.V6? == c.isV6 && BlockStart(c.bits, size) <= Value(addr) < BlockStart(c.bits, size) + size
  {
    Pow2Families();
    var size := Pow2(TotalBits(c.isV6) - c.prefix);
    if c.prefix == 0 {
      assert c.bits % size == c.bits;
    } else {
      SameBlock(Value(addr), c.bits, size);
    }
  }

  datatype PortRange = PortRange(min: U16, max: U16)

  /** Patterns are stored lowercased. */
  datatype HostPattern = Exact(name: string) | Suffix(domain: string)

  function StripDot(host: string): string {
    if host != "" && host[|host| - 1] == '.' then host[..|host| - 1] else host
  }

  predicate HostMatches(p: HostPattern, host0: string) {
    var host := StripDot(host0);
    match p
    case Exact(name) => Ascii.EqIgnoreCase(host, name)
    case Suffix(domain) =>
      || Ascii.EqIgnoreCase(host, domain)
      || (|host| > |domain|
          && host[|host| - |domain| - 1] == '.'
          && Ascii.EqIgnoreCase(host[|host| - |domain|..], domain))
  }

  datatype AddrSpec = AddrSpec(cidrs: seq<Cidr>, hosts: seq<HostPattern>, ports: Option<PortRange>)

  predicate PortMatches(s: AddrSpec, port: U16) {
    s.ports.None? || s.ports.value.min <= port <= s.ports.value.max
  }

  predicate AnyContains(cidrs: seq<Cidr>, ip: Ip) {
    exists i :: 0 <= i < |cidrs| && Contains(cidrs[i], ip)
  }

  predicate AnyHostMatches(hosts: seq<HostPattern>, host: string) {
    exists i :: 0 <= i < |hosts| && HostMatches(hosts[i], host)
  }

  /** Used for `from:`; host patterns play no part. */
  predicate MatchesAddr(s: AddrSpec, ip: Ip, port: U16) {
    AnyContains(s.cidrs, ip) && PortMatches(s, port)
  }

  /** A request destination: the requested name, if the client sent one, and the resolved address. */
  datatype Dest = Dest(host: Option<string>, ip: Ip, port: U16)

  predicate MatchesDest(s: AddrSpec, d: Dest) {
    PortMatches(s, d.port) &&
    (AnyContains(s.cidrs, d.ip) || (d.host.Some? && AnyHostMatches(s.hosts, d.host.value)))
  }

  predicate MatchesAll(s: AddrSpec) {
    s.ports.None?
    && (exists i :: 0 <= i < |s.cidrs| && s.cidrs[i].prefix == 0 && !s.cidrs[i].isV6)
    && (exists i :: 0 <= i < |s.cidrs| && s.cidrs[i].prefix == 0 && s.cidrs[i].isV6)
  }

  /** The shortcut test for "every destination" is sound. */
  lemma MatchesAllIsUniversal(s: AddrSpec, d: Dest)
    requires MatchesAll(s)
    ensures MatchesDest(s, d)
  {
    var i :| 0 <= i < |s.cidrs| && s.cidrs[i].prefix == 0 && s.cidrs[i].isV6 == d.ip.V6?;
    assert Contains(s.cidrs[i], d.ip);
  }

  // ---------------------------------------------------------------------------
  // What the configuration parser can produce
  // ---------------------------------------------------------------------------

  predicate ParsedPorts(ports: Option<PortRange>) {
    ports.Some? ==> ports.value.min <= ports.value.max
  }

  function AnySpec(): AddrSpec {
    AddrSpec([CidrBits(0, 0, false), CidrBits(0, 0, true)], [], None)
  }

  /** No selector, one network or one host pattern; ports in ascending order. */
  predicate Parsed(s: AddrSpec) {
    || s == AnySpec()
    || (|s.cidrs| == 1 && s.hosts == [] && ParsedPorts(s.ports))
    || (s.cidrs == [] && |s.hosts| == 1 && ParsedPorts(s.ports))
  }

  /** No parsed selector is empty: a destination it matches. */
  lemma ParsedIsInhabited(s: AddrSpec) returns (d: Dest)
    requires Parsed(s)
    ensures MatchesDest(s, d)
  {
    var port: U16 := if s.ports.Some? then s.ports.value.min else 0;
    if s.cidrs != [] {
      var c := s.cidrs[0];
      d := Dest(None, if c.isV6 then V6(c.bits) else V4(c.bits), port);
      assert Contains(c, d.ip);
    } else {
      var name := if s.hosts[0].Exact? then s.hosts[0].name else s.hosts[0].domain;
      d := Dest(Some(name + "."), V4(0), port);
      assert StripDot(name + ".") == name;
      assert HostMatches(s.hosts[0], name + ".");
    }
  }

  /** For a parsed selector the shortcut test is exact: it finds every selector that matches everything. */
  lemma MatchesAllIff(s: AddrSpec)
    requires Parsed(s)
    ensures MatchesAll(s) <==> forall d :: MatchesDest(s, d)
  {
    var any := AnySpec();
    assert MatchesAll(any) by {
      assert any.cidrs[0] == CidrBits(0, 0, false) && any.cidrs[1] == CidrBits(0, 0, true);
    }
    if MatchesAll(s) {
      forall d ensures MatchesDest(s, d) {
        MatchesAllIsUniversal(s, d);
      }
    } else if s != AnySpec() {
      var other := if s.cidrs != [] && s.cidrs[0].isV6 then V4(0) else V6(0);
      assert !MatchesDest(s, Dest(None, other, 0));
    }
  }
}
