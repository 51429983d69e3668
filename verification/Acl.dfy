/**
 Access rules. Requests are decided by the first matching rule, denied by default; a UDP
 ASSOCIATE is additionally gated up front, before any destination is known.
 */
module Acl {
  import opened Options
  import opened Net

  datatype Verdict = Pass | Block
  datatype Scope = Client | Socks
  datatype Command = Connect | Bind | UdpAssociate
  datatype Protocol = Tcp | Udp
  datatype AuthKind = NoAuth | Username

  datatype Rule = Rule(
    name: Option<string>, verdict: Verdict, scope: Scope, from: AddrSpec, to: AddrSpec,
    commands: seq<Command>, protocols: seq<Protocol>, methods: seq<AuthKind>,
    bandwidth: Option<(nat, nat)>, sourceLine: nat)

  datatype Who = Who(ip: Ip, port: U16, auth: AuthKind)

  datatype Request = Request(who: Who, dest: Dest, command: Command, protocol: Protocol)

  datatype Decision = Decision(
    verdict: Verdict, sourceLine: Option<nat>, ruleName: Option<string>, bandwidth: Option<(nat, nat)>)

  /** An empty selector list means "any". */
  predicate Selects<T(==)>(list: seq<T>, x: T) {
    list == [] || x in list
  }

  /** Everything a rule asks of a request apart from its destination. */
  predicate Applies(r: Rule, who: Who, command: Command, protocol: Protocol) {
    && r.scope == Socks
    && MatchesAddr(r.from, who.ip, who.port)
    && Selects(r.commands, command)
    && Selects(r.protocols, protocol)
    && Selects(r.methods, who.auth)
  }

  predicate MatchesSocks(r: Rule, q: Request) {
    && r.scope == Socks
    && MatchesAddr(r.from, q.who.ip, q.who.port)
    && MatchesDest(r.to, q.dest)
    && Selects(r.commands, q.command)
    && Selects(r.protocols, q.protocol)
    && Selects(r.methods, q.who.auth)
  }

  function DecisionOf(r: Rule): Decision {
    Decision(r.verdict, Some(r.sourceLine), r.name, r.bandwidth)
  }

  const DENY := Decision(Block, None, None, None)

  function EvaluateSocks(rules: seq<Rule>, q: Request): Decision {
    if rules == [] then DENY
    else if MatchesSocks(rules[0], q) then DecisionOf(rules[0])
    else EvaluateSocks(rules[1..], q)
  }

  /** The gate: walks the same list without knowing the destination. */
  predicate UdpAssociateReachable(rules: seq<Rule>, who: Who) {
    if rules == [] then false
    else if !Applies(rules[0], who, UdpAssociate, Udp) then UdpAssociateReachable(rules[1..], who)
    else if rules[0].verdict == Pass then true
    else if MatchesAll(rules[0].to) then false
    else UdpAssociateReachable(rules[1..], who)
  }

  /** The first matching rule decides, by its position in the list; none means denial. */
  lemma {:induction false} FirstMatchWins(rules: seq<Rule>, q: Request)
    ensures (forall i :: 0 <= i < |rules| ==> !MatchesSocks(rules[i], q)) <==>
            EvaluateSocks(rules, q).sourceLine.None?
    ensures EvaluateSocks(rules, q).sourceLine.None? ==> EvaluateSocks(rules, q) == DENY
    ensures forall i :: 0 <= i < |rules| && MatchesSocks(rules[i], q)
                        && (forall j :: 0 <= j < i ==> !MatchesSocks(rules[j], q))
                        ==> EvaluateSocks(rules, q) == DecisionOf(rules[i])
  {
    if rules != [] && !MatchesSocks(rules[0], q) {
      var rest := rules[1..];
      FirstMatchWins(rest, q);
      assert forall i :: 1 <= i < |rules| ==> rules[i] == rest[i - 1];
      assert forall i :: 0 <= i < |rest| ==> rest[i] == rules[i + 1];
    }
  }

  function UdpRequest(who: Who, dest: Dest): Request {
    Request(who, dest, UdpAssociate, Udp)
  }

  /** The gate never refuses a client that full evaluation would let reach some destination. */
  lemma {:induction false} UdpGateIsSound(rules: seq<Rule>, who: Who, dest: Dest)
    ensures EvaluateSocks(rules, UdpRequest(who, dest)).verdict == Pass ==> UdpAssociateReachable(rules, who)
  {
    if rules != [] {
      UdpGateIsSound(rules[1..], who, dest);
      if MatchesAll(rules[0].to) {
        MatchesAllIsUniversal(rules[0].to, dest);
      }
    }
  }

  /** A refusal is categorical: every destination whatsoever would have been blocked. */
  lemma RefusalBlocksEverything(rules: seq<Rule>, who: Who)
    requires !UdpAssociateReachable(rules, who)
    ensures forall dest :: EvaluateSocks(rules, UdpRequest(who, dest)).verdict == Block
  {
    forall dest ensures EvaluateSocks(rules, UdpRequest(who, dest)).verdict == Block {
      UdpGateIsSound(rules, who, dest);
    }
  }

  /** Rule `i` is the pass rule that opens the gate. */
  predicate OpensGate(rules: seq<Rule>, who: Who, i: nat) {
    && i < |rules|
    && Applies(rules[i], who, UdpAssociate, Udp)
    && rules[i].verdict == Pass
    && (forall j :: 0 <= j < i && Applies(rules[j], who, UdpAssociate, Udp) ==>
          rules[j].verdict == Block && !MatchesAll(rules[j].to))
  }

  /** The gate is open exactly when a pass rule comes before every categorical block. */
  lemma {:induction false} GateOpenIff(rules: seq<Rule>, who: Who)
    ensures UdpAssociateReachable(rules, who) <==> exists i: nat :: OpensGate(rules, who, i)
  {
    if rules != [] {
      var rest := rules[1..];
      GateOpenIff(rest, who);
      if i: nat :| OpensGate(rest, who, i) {
        if UdpAssociateReachable(rules, who) && !OpensGate(rules, who, 0) {
          assert forall j :: 0 < j <= i ==> rules[j] == rest[j - 1];
          assert OpensGate(rules, who, i + 1);
        }
      }
      if UdpAssociateReachable(rules, who) && !UdpAssociateReachable(rest, who) {
        assert OpensGate(rules, who, 0);
      }
      if i: nat :| OpensGate(rules, who, i) {
        if i > 0 {
          assert forall j :: 0 <= j < i ==> rest[j] == rules[j + 1];
          assert OpensGate(rest, who, i - 1);
        }
      }
    }
  }

  /** No destination is claimed by both selectors. */
  ghost predicate Disjoint(a: AddrSpec, b: AddrSpec) {
    forall d :: !(MatchesDest(a, d) && MatchesDest(b, d))
  }

  /**
   An open gate promises the whole range of the rule that opened it exactly when no earlier
   applicable block overlaps that range.
   */
  lemma OpenGateRangeIff(rules: seq<Rule>, who: Who, i: nat)
    requires OpensGate(rules, who, i)
    ensures (forall d :: MatchesDest(rules[i].to, d) ==>
               EvaluateSocks(rules, UdpRequest(who, d)).verdict == Pass) <==>
            (forall j :: 0 <= j < i && Applies(rules[j], who, UdpAssociate, Udp) ==>
               Disjoint(rules[j].to, rules[i].to))
  {
    if forall j :: 0 <= j < i && Applies(rules[j], who, UdpAssociate, Udp) ==> Disjoint(rules[j].to, rules[i].to) {
      forall d | MatchesDest(rules[i].to, d)
        ensures EvaluateSocks(rules, UdpRequest(who, d)).verdict == Pass
      {
        FirstMatchWins(rules, UdpRequest(who, d));
        assert forall j :: 0 <= j < i ==> !MatchesSocks(rules[j], UdpRequest(who, d));
        assert MatchesSocks(rules[i], UdpRequest(who, d));
      }
    } else {
      var j :| 0 <= j < i && Applies(rules[j], who, UdpAssociate, Udp) && !Disjoint(rules[j].to, rules[i].to);
      var d :| MatchesDest(rules[j].to, d) && MatchesDest(rules[i].to, d);
      BlockedBefore(rules, who, i, j, d);
    }
  }

  lemma BlockedBefore(rules: seq<Rule>, who: Who, i: nat, j: nat, d: Dest)
    requires OpensGate(rules, who, i) && j < i
    requires MatchesSocks(rules[j], UdpRequest(who, d))
    ensures EvaluateSocks(rules, UdpRequest(who, d)).verdict == Block
    decreases j
  {
    if k :| 0 <= k < j && MatchesSocks(rules[k], UdpRequest(who, d)) {
      BlockedBefore(rules, who, i, k, d);
    } else {
      FirstMatchWins(rules, UdpRequest(who, d));
      assert Applies(rules[j], who, UdpAssociate, Udp);
    }
  }

  /** Rule `k` lets the request through: it passes it, and so does every earlier rule that matches. */
  ghost predicate LetsThrough(rules: seq<Rule>, q: Request, k: nat) {
    && k < |rules| && rules[k].verdict == Pass && MatchesSocks(rules[k], q)
    && forall j :: 0 <= j < k && MatchesSocks(rules[j], q) ==> rules[j].verdict == Pass
  }

  /** A request passes exactly when some pass rule matches it and no earlier block does. */
  lemma {:induction false} PassesIff(rules: seq<Rule>, q: Request)
    ensures EvaluateSocks(rules, q).verdict == Pass <==> exists k: nat :: LetsThrough(rules, q, k)
  {
    if rules != [] {
      hide MatchesSocks;
      var rest := rules[1..];
      PassesIff(rest, q);
      if MatchesSocks(rules[0], q) {
        assert rules[0].verdict == Pass ==> LetsThrough(rules, q, 0);
      } else {
        if k: nat :| LetsThrough(rest, q, k) {
          assert forall j :: 0 < j <= k + 1 ==> rules[j] == rest[j - 1];
          assert LetsThrough(rules, q, k + 1);
        }
        if k: nat :| LetsThrough(rules, q, k) {
          assert forall j :: 0 <= j < k ==> rest[j] == rules[j + 1];
          assert LetsThrough(rest, q, k - 1);
        }
      }
    }
  }

  ghost predicate Reaches(rules: seq<Rule>, who: Who, d: Dest) {
    EvaluateSocks(rules, UdpRequest(who, d)).verdict == Pass
  }

  /** A destination in the range of pass rule `k` that no earlier applicable block takes away. */
  ghost predicate Leaves(rules: seq<Rule>, who: Who, k: nat, d: Dest) {
    && k < |rules| && rules[k].verdict == Pass && Applies(rules[k], who, UdpAssociate, Udp)
    && MatchesDest(rules[k].to, d)
    && forall j :: 0 <= j < k && Applies(rules[j], who, UdpAssociate, Udp) && rules[j].verdict == Block ==>
         !MatchesDest(rules[j].to, d)
  }

  /** Every destination of the range is taken away by an earlier applicable block. */
  ghost predicate Covered(rules: seq<Rule>, who: Who, k: nat)
    requires k < |rules|
  {
    forall d :: MatchesDest(rules[k].to, d) ==>
      exists j :: 0 <= j < k && Applies(rules[j], who, UdpAssociate, Udp) && rules[j].verdict == Block
                  && MatchesDest(rules[j].to, d)
  }

  lemma ReachesIff(rules: seq<Rule>, who: Who, d: Dest)
    ensures Reaches(rules, who, d) <==> exists k: nat :: Leaves(rules, who, k, d)
  {
    var q := UdpRequest(who, d);
    PassesIff(rules, q);
    if k: nat :| LetsThrough(rules, q, k) {
      assert Leaves(rules, who, k, d);
    }
    if k: nat :| Leaves(rules, who, k, d) {
      assert LetsThrough(rules, q, k);
    }
  }

  /**
   The exact reach of the rules: a client reaches some destination over UDP if and only if some
   applicable pass rule has a destination in its range that no earlier applicable block covers.
   Then the gate is open; an open gate leads nowhere exactly when all those ranges are covered.
   */
  lemma ReachesSomethingIff(rules: seq<Rule>, who: Who)
    ensures (exists d :: Reaches(rules, who, d)) <==>
            exists k :: 0 <= k < |rules| && rules[k].verdict == Pass && Applies(rules[k], who, UdpAssociate, Udp)
                        && !Covered(rules, who, k)
    ensures (exists d :: Reaches(rules, who, d)) ==> UdpAssociateReachable(rules, who)
  {
    hide MatchesDest, Applies, Reaches;
    if d :| Reaches(rules, who, d) {
      ReachesIff(rules, who, d);
      var k: nat :| Leaves(rules, who, k, d);
      assert !Covered(rules, who, k);
      OpenIfReaches(rules, who, d);
    }
    if k :| 0 <= k < |rules| && rules[k].verdict == Pass && Applies(rules[k], who, UdpAssociate, Udp)
            && !Covered(rules, who, k) {
      var d := Uncovered(rules, who, k);
      ReachesIff(rules, who, d);
    }
  }

  lemma OpenIfReaches(rules: seq<Rule>, who: Who, d: Dest)
    requires Reaches(rules, who, d)
    ensures UdpAssociateReachable(rules, who)
  {
    UdpGateIsSound(rules, who, d);
  }

  lemma Uncovered(rules: seq<Rule>, who: Who, k: nat) returns (d: Dest)
    requires k < |rules| && rules[k].verdict == Pass && Applies(rules[k], who, UdpAssociate, Udp)
    requires !Covered(rules, who, k)
    ensures Leaves(rules, who, k, d)
  {
    hide MatchesDest, Applies;
    d :| MatchesDest(rules[k].to, d) && forall j ::
           0 <= j < k && Applies(rules[j], who, UdpAssociate, Udp) && rules[j].verdict == Block ==>
             !MatchesDest(rules[j].to, d);
  }

  /** In a parsed configuration a gate opened by a rule no earlier applicable block overlaps leads somewhere. */
  lemma OpenGateLeadsSomewhere(rules: seq<Rule>, who: Who, i: nat) returns (d: Dest)
    requires OpensGate(rules, who, i) && Net.Parsed(rules[i].to)
    requires forall j :: 0 <= j < i && Applies(rules[j], who, UdpAssociate, Udp) ==> Disjoint(rules[j].to, rules[i].to)
    ensures MatchesDest(rules[i].to, d) && Reaches(rules, who, d)
  {
    OpenGateRangeIff(rules, who, i);
    d := ParsedIsInhabited(rules[i].to);
  }

  /** The gate can be open although nothing is reachable: a block repeated as a pass. */
  lemma OpenGateMayLeadNowhere()
    returns (rules: seq<Rule>, who: Who)
    ensures forall i :: 0 <= i < |rules| ==> Net.Parsed(rules[i].from) && Net.Parsed(rules[i].to)
    ensures UdpAssociateReachable(rules, who)
    ensures forall d :: !Reaches(rules, who, d)
  {
    var all := AnySpec();
    var net := AddrSpec([CidrBits(0, 0, false)], [], None);
    var block := Rule(None, Block, Socks, all, net, [], [], [], None, 1);
    var pass := block.(verdict := Pass, sourceLine := 2);
    rules, who := [block, pass], Who(V4(0), 0, NoAuth);
    assert Contains(all.cidrs[0], who.ip);
    assert rules[1..] == [pass];
    forall d ensures !Reaches(rules, who, d) {
      FirstMatchWins(rules, UdpRequest(who, d));
      assert MatchesSocks(rules[1], UdpRequest(who, d)) ==> MatchesSocks(rules[0], UdpRequest(who, d));
    }
  }
}
