/** The two firewall compilers (core/src/firewall.rs): one configuration becomes an nftables
    ruleset and an iptables ruleset. Rules are an AST, packets are run through the chains of a
    hook in priority order (mangle at -150 before nat at -100). */
module Hijack {
  import opened Common

  const FWMARK: nat := 0x80000

  // ---------------------------------------------------------------- packets and configuration

  datatype Cidr = Cidr(base: nat, bits: nat)

  predicate Contains(c: Cidr, addr: nat) {
    c.bits <= 32 && 0 < Pow2(32 - c.bits) && addr / Pow2(32 - c.bits) == c.base / Pow2(32 - c.bits)
  }

  predicate InAny(subnets: seq<Cidr>, addr: nat) {
    exists i :: 0 <= i < |subnets| && Contains(subnets[i], addr)
  }

  datatype Proto = Tcp | Udp | OtherProto

  type Port = p: nat | p < 0x1_0000

  datatype Packet = Packet(
    src: nat, dst: nat, proto: Proto, dport: Port, mark: nat, gid: nat, mac: string, established: bool)

  datatype MacFilter = Blacklist(addrs: seq<string>) | Whitelist(addrs: seq<string>)

  datatype FirewallConfig = FirewallConfig(
    tunPort: Option<Port>, vmIpv4: Option<Cidr>, vmRedir: bool, macFilter: Option<MacFilter>,
    ipFilter: Option<Cidr>, quicReject: bool, commonPorts: seq<Port>,
    dnsPort: Port, proxyPort: Port, mixedPort: Port, hijackSubnets: seq<Cidr>)

  /** 192.168.0.0/16, 10.0.0.0/8 and 172.16.0.0/12. */
  const DEFAULT_SUBNETS: seq<Cidr> := [Cidr(0xC0A8_0000, 16), Cidr(0x0A00_0000, 8), Cidr(0xAC10_0000, 12)]

  function Subnets(cfg: FirewallConfig): seq<Cidr> {
    if cfg.hijackSubnets == [] then DEFAULT_SUBNETS else cfg.hijackSubnets
  }

  // ---------------------------------------------------------------- rules and their evaluation

  datatype NftMatch =
    | SaddrIn(subnets: seq<Cidr>) | SaddrIs(net: Cidr) | DaddrIs(net: Cidr)
    | L4TcpUdp | TcpDport(ports: PortSet) | UdpDport(ports: PortSet)
    | MetaMark(mark: nat) | MetaSkgid(gids: set<nat>) | CtEstablished | EtherSaddr(mac: string)

  datatype PortSet = AllPorts | Listed(ports: seq<Port>)

  datatype IptMatch =
    | Source(net: Cidr) | Dest(net: Cidr) | Protocol(proto: Proto) | Dport(port: Port)
    | Multiport(ports: seq<Port>) | Mark(mark: nat) | GidOwner(gid: nat) | StateEstablished
    | MacSource(mac: string)

  /** What a matching rule does; setting a mark lets the packet go on to the next rule. */
  datatype Action = Redirect(port: Port) | Return | Drop | Accept | SetMark(mark: nat) | Tproxy(mark: nat, port: Port)

  datatype NftRule = NftRule(matches: seq<NftMatch>, action: Action)
  datatype IptRule = IptRule(matches: seq<IptMatch>, action: Action)

  /** `1-65535` does not contain port 0. */
  predicate InPorts(ports: PortSet, p: Port) {
    match ports
    case AllPorts => 1 <= p
    case Listed(ps) => p in ps
  }

  predicate NftHolds(m: NftMatch, p: Packet) {
    match m
    case SaddrIn(subnets) => InAny(subnets, p.src)
    case SaddrIs(net) => Contains(net, p.src)
    case DaddrIs(net) => Contains(net, p.dst)
    case L4TcpUdp => p.proto == Tcp || p.proto == Udp
    case TcpDport(ports) => p.proto == Tcp && InPorts(ports, p.dport)
    case UdpDport(ports) => p.proto == Udp && InPorts(ports, p.dport)
    case MetaMark(mark) => p.mark == mark
    case MetaSkgid(gids) => p.gid in gids
    case CtEstablished => p.established
    case EtherSaddr(mac) => p.mac == mac
  }

  predicate IptHolds(m: IptMatch, p: Packet) {
    match m
    case Source(net) => Contains(net, p.src)
    case Dest(net) => Contains(net, p.dst)
    case Protocol(proto) => p.proto == proto
    case Dport(port) => p.dport == port
    case Multiport(ports) => p.dport in ports
    case Mark(mark) => p.mark == mark
    case GidOwner(gid) => p.gid == gid
    case StateEstablished => p.established
    case MacSource(mac) => p.mac == mac
  }

  predicate NftAll(ms: seq<NftMatch>, p: Packet) { ms == [] || (NftHolds(ms[0], p) && NftAll(ms[1..], p)) }

  predicate IptAll(ms: seq<IptMatch>, p: Packet) { ms == [] || (IptHolds(ms[0], p) && IptAll(ms[1..], p)) }

  datatype Verdict = Pass | Redirected(port: Port) | Dropped | Tproxied(port: Port)

  /** The end of a chain: what happened to the packet and the mark it now carries. */
  datatype Outcome = Outcome(verdict: Verdict, mark: nat)

  function NftRun(rules: seq<NftRule>, p: Packet): Outcome {
    if rules == [] then Outcome(Pass, p.mark)
    else if !NftAll(rules[0].matches, p) then NftRun(rules[1..], p)
    else
      match rules[0].action
      case SetMark(mark) => NftRun(rules[1..], p.(mark := mark))
      case action => Finish(action, p)
  }

  function IptRun(rules: seq<IptRule>, p: Packet): Outcome {
    if rules == [] then Outcome(Pass, p.mark)
    else if !IptAll(rules[0].matches, p) then IptRun(rules[1..], p)
    else
      match rules[0].action
      case SetMark(mark) => IptRun(rules[1..], p.(mark := mark))
      case action => Finish(action, p)
  }

  function Finish(action: Action, p: Packet): Outcome
    requires !action.SetMark?
  {
    match action
    case Redirect(port) => Outcome(Redirected(port), p.mark)
    case Return => Outcome(Pass, p.mark)
    case Accept => Outcome(Pass, p.mark)
    case Drop => Outcome(Dropped, p.mark)
    case Tproxy(mark, port) => Outcome(Tproxied(port), mark)
  }

  // ---------------------------------------------------------------- generate_full_nft_script

  datatype NftScript = NftScript(
    preMangle: seq<NftRule>, preNat: seq<NftRule>, outMangle: seq<NftRule>, outNat: seq<NftRule>,
    input: seq<NftRule>, forward: seq<NftRule>)

  const EXEMPT_GIDS: set<nat> := {453, 7890}

  function NftPortFilter(cfg: FirewallConfig, gate: seq<NftMatch>): seq<NftRule> {
    var ports := if cfg.commonPorts == [] then AllPorts else Listed(cfg.commonPorts);
    [NftRule(gate + [TcpDport(ports)], Redirect(cfg.proxyPort)),
     NftRule(gate + [UdpDport(ports)], Redirect(cfg.proxyPort))]
  }

  function NftMacRules(cfg: FirewallConfig): seq<NftRule> {
    match cfg.macFilter
    case None => []
    case Some(f) =>
      var action := if f.Blacklist? then Drop else Accept;
      seq(|f.addrs|, i requires 0 <= i < |f.addrs| => NftRule([EtherSaddr(f.addrs[i])], action))
  }

  function NftHijack(cfg: FirewallConfig): seq<NftRule> {
    var lan := SaddrIn(Subnets(cfg));
    [NftRule([lan, UdpDport(Listed([53]))], Redirect(cfg.dnsPort)),
     NftRule([lan, TcpDport(Listed([53]))], Redirect(cfg.dnsPort))]
    + NftPortFilter(cfg, [lan])
  }

  function NftPreNat(cfg: FirewallConfig): seq<NftRule> {
    (if cfg.vmIpv4.Some? && !cfg.vmRedir then [NftRule([DaddrIs(cfg.vmIpv4.value)], Return)] else [])
    + ((if cfg.ipFilter.Some? then [NftRule([SaddrIs(cfg.ipFilter.value)], Return)] else [])
    + NftHijack(cfg))
  }

  function NftExempt(): seq<NftRule> {
    [NftRule([MetaMark(FWMARK)], Return), NftRule([MetaSkgid(EXEMPT_GIDS)], Return)]
  }

  /** The ports the input chain guards; the tproxy port is the TUN port or two past the proxy. */
  function GuardedPorts(cfg: FirewallConfig): seq<Port>
    requires cfg.proxyPort + 2 < 0x1_0000
  {
    [cfg.mixedPort, cfg.proxyPort, if cfg.tunPort.Some? then cfg.tunPort.value else cfg.proxyPort + 2, cfg.dnsPort]
  }

  function NftInput(cfg: FirewallConfig): seq<NftRule>
    requires cfg.proxyPort + 2 < 0x1_0000
  {
    var listeners := TcpDport(Listed(GuardedPorts(cfg)));
    [NftRule([CtEstablished], Accept),
     NftRule([MetaMark(FWMARK)], Return),
     NftRule([SaddrIn(Subnets(cfg)), listeners], Accept),
     NftRule([listeners], Drop)]
    + NftMacRules(cfg)
  }

  function CompileNft(cfg: FirewallConfig): Result<NftScript> {
    // The port check runs before the TUN port is looked at, so it also rejects TUN configurations.
    if cfg.proxyPort + 2 > 65535 then Err
    else
      var tun := cfg.tunPort.Some?;
      Ok(NftScript(
           if tun then [NftRule([SaddrIn(Subnets(cfg)), L4TcpUdp], Tproxy(FWMARK, cfg.tunPort.value))] else [],
           NftPreNat(cfg),
           if tun then NftExempt() + [NftRule([], SetMark(FWMARK))] else [],
           NftExempt() + NftPortFilter(cfg, []),
           NftInput(cfg),
           [NftRule([CtEstablished], Accept)]
           + (if cfg.quicReject then [NftRule([UdpDport(Listed([443]))], Drop)] else [])))
  }

  // ---------------------------------------------------------------- generate_full_iptables_script

  datatype IptScript = IptScript(
    preNat: seq<IptRule>, outMangle: seq<IptRule>, outNat: seq<IptRule>, input: seq<IptRule>, forward: seq<IptRule>)

  function PerSubnet(subnets: seq<Cidr>, matches: seq<IptMatch>, port: Port): seq<IptRule> {
    seq(|subnets|, i requires 0 <= i < |subnets| => IptRule([Source(subnets[i])] + matches, Redirect(port)))
  }

  function TcpPorts(cfg: FirewallConfig): seq<IptMatch> {
    if cfg.commonPorts == [] then [Protocol(Tcp)] else [Protocol(Tcp), Multiport(cfg.commonPorts)]
  }

  function IptPreNat(cfg: FirewallConfig): seq<IptRule> {
    (if cfg.vmIpv4.Some? && !cfg.vmRedir then [IptRule([Dest(cfg.vmIpv4.value)], Return)] else [])
    + ((if cfg.ipFilter.Some? then [IptRule([Source(cfg.ipFilter.value)], Return)] else [])
    + (PerSubnet(Subnets(cfg), [Protocol(Udp), Dport(53)], cfg.dnsPort)
    + (PerSubnet(Subnets(cfg), [Protocol(Tcp), Dport(53)], cfg.dnsPort)
    + (PerSubnet(Subnets(cfg), TcpPorts(cfg), cfg.proxyPort) + []))))
  }

  function IptExempt(): seq<IptRule> {
    [IptRule([Mark(FWMARK)], Return), IptRule([GidOwner(453)], Return), IptRule([GidOwner(7890)], Return)]
  }

  function IptMacRules(cfg: FirewallConfig): seq<IptRule> {
    match cfg.macFilter
    case None => []
    case Some(f) =>
      var action := if f.Blacklist? then Drop else Accept;
      seq(|f.addrs|, i requires 0 <= i < |f.addrs| => IptRule([MacSource(f.addrs[i])], action))
  }

  function CompileIpt(cfg: FirewallConfig): IptScript {
    IptScript(
      IptPreNat(cfg),
      IptExempt() + [IptRule([], SetMark(FWMARK))],
      IptExempt() + [IptRule(TcpPorts(cfg), Redirect(cfg.proxyPort))],
      [IptRule([StateEstablished], Accept), IptRule([Mark(FWMARK)], Return)] + IptMacRules(cfg),
      [IptRule([StateEstablished], Accept)]
      + (if cfg.quicReject then [IptRule([Protocol(Udp), Dport(443)], Drop)] else []))
  }

  // ---------------------------------------------------------------- hooks

  /** The two chains of a hook: mangle first, then nat with the mark mangle left. */
  datatype HookOutcome = HookOutcome(atMangle: Outcome, atNat: Outcome)

  function NftHook(mangle: seq<NftRule>, natRules: seq<NftRule>, p: Packet): HookOutcome {
    var first := NftRun(mangle, p);
    HookOutcome(first, NftRun(natRules, p.(mark := first.mark)))
  }

  function IptHook(mangle: seq<IptRule>, natRules: seq<IptRule>, p: Packet): HookOutcome {
    var first := IptRun(mangle, p);
    HookOutcome(first, IptRun(natRules, p.(mark := first.mark)))
  }

  // ---------------------------------------------------------------- what prerouting means

  /** Left alone by configuration: an excluded VM destination or an excluded source. */
  predicate Excluded(cfg: FirewallConfig, p: Packet) {
    || (cfg.vmIpv4.Some? && !cfg.vmRedir && Contains(cfg.vmIpv4.value, p.dst))
    || (cfg.ipFilter.Some? && Contains(cfg.ipFilter.value, p.src))
  }

  predicate Eligible(cfg: FirewallConfig, p: Packet) { !Excluded(cfg, p) && InAny(Subnets(cfg), p.src) }

  predicate Selected(cfg: FirewallConfig, port: Port) {
    if cfg.commonPorts == [] then 1 <= port else port in cfg.commonPorts
  }

  predicate IsDns(p: Packet) { (p.proto == Udp || p.proto == Tcp) && p.dport == 53 }

  /** The packets on which the two compilers differ. */
  predicate Differs(cfg: FirewallConfig, p: Packet) {
    && Eligible(cfg, p)
    && ((p.proto == Udp && p.dport != 53 && Selected(cfg, p.dport))
        || (p.proto == Tcp && p.dport == 0 && cfg.commonPorts == []))
  }

  lemma NftStep(r: NftRule, rest: seq<NftRule>, p: Packet)
    ensures NftRun([r] + rest, p) ==
            if !NftAll(r.matches, p) then NftRun(rest, p)
            else if r.action.SetMark? then NftRun(rest, p.(mark := r.action.mark))
            else Finish(r.action, p)
  {
    assert ([r] + rest)[1..] == rest;
  }

  lemma IptStep(r: IptRule, rest: seq<IptRule>, p: Packet)
    ensures IptRun([r] + rest, p) ==
            if !IptAll(r.matches, p) then IptRun(rest, p)
            else if r.action.SetMark? then IptRun(rest, p.(mark := r.action.mark))
            else Finish(r.action, p)
  {
    assert ([r] + rest)[1..] == rest;
  }

  lemma NftOne(m: NftMatch, p: Packet)
    ensures NftAll([m], p) <==> NftHolds(m, p)
  {
  }

  lemma NftTwo(m: NftMatch, n: NftMatch, p: Packet)
    ensures NftAll([m, n], p) <==> NftHolds(m, p) && NftHolds(n, p)
  {
    assert [m, n][1..] == [n];
    NftOne(n, p);
  }

  lemma NftPortFilterMeans(cfg: FirewallConfig, gate: seq<NftMatch>, p: Packet)
    requires |gate| <= 1
    ensures NftRun(NftPortFilter(cfg, gate), p) == Outcome(
      if NftAll(gate, p) && p.proto != OtherProto && Selected(cfg, p.dport) then Redirected(cfg.proxyPort) else Pass,
      p.mark)
  {
    var ports := if cfg.commonPorts == [] then AllPorts else Listed(cfg.commonPorts);
    forall m | m == TcpDport(ports) || m == UdpDport(ports)
      ensures NftAll(gate + [m], p) <==> NftAll(gate, p) && NftHolds(m, p)
    {
      NftOne(m, p);
      if gate == [] {
        assert gate + [m] == [m];
      } else {
        assert gate == [gate[0]] && gate + [m] == [gate[0], m];
        NftOne(gate[0], p);
        NftTwo(gate[0], m, p);
      }
    }
    var t := NftRule(gate + [TcpDport(ports)], Redirect(cfg.proxyPort));
    var u := NftRule(gate + [UdpDport(ports)], Redirect(cfg.proxyPort));
    NftStep(u, [], p);
    NftStep(t, [u], p);
    assert NftPortFilter(cfg, gate) == [t] + [u] && [u] == [u] + [];
  }

  lemma NftHijackMeans(cfg: FirewallConfig, p: Packet)
    ensures NftRun(NftHijack(cfg), p) == Outcome(
      if !InAny(Subnets(cfg), p.src) then Pass
      else if IsDns(p) then Redirected(cfg.dnsPort)
      else if p.proto != OtherProto && Selected(cfg, p.dport) then Redirected(cfg.proxyPort)
      else Pass,
      p.mark)
  {
    hide InAny, NftPortFilter;
    var lan := SaddrIn(Subnets(cfg));
    NftTwo(lan, UdpDport(Listed([53])), p);
    NftTwo(lan, TcpDport(Listed([53])), p);
    NftOne(lan, p);
    NftPortFilterMeans(cfg, [lan], p);
    var du := NftRule([lan, UdpDport(Listed([53]))], Redirect(cfg.dnsPort));
    var dt := NftRule([lan, TcpDport(Listed([53]))], Redirect(cfg.dnsPort));
    NftStep(dt, NftPortFilter(cfg, [lan]), p);
    NftStep(du, [dt] + NftPortFilter(cfg, [lan]), p);
    assert NftHijack(cfg) == [du] + ([dt] + NftPortFilter(cfg, [lan]));
  }

  /** nft's prerouting chain, rule by rule, is this decision. */
  lemma NftPreroutingMeans(cfg: FirewallConfig, p: Packet)
    ensures NftRun(NftPreNat(cfg), p) == Outcome(
      if !Eligible(cfg, p) then Pass
      else if IsDns(p) then Redirected(cfg.dnsPort)
      else if p.proto != OtherProto && Selected(cfg, p.dport) then Redirected(cfg.proxyPort)
      else Pass,
      p.mark)
  {
    hide InAny, NftHijack;
    NftHijackMeans(cfg, p);
    var rest := NftHijack(cfg);
    assert [] + rest == rest;
    if cfg.ipFilter.Some? {
      var r := NftRule([SaddrIs(cfg.ipFilter.value)], Return);
      NftStep(r, rest, p);
      NftOne(SaddrIs(cfg.ipFilter.value), p);
      rest := [r] + rest;
    }
    assert [] + rest == rest;
    if cfg.vmIpv4.Some? && !cfg.vmRedir {
      NftStep(NftRule([DaddrIs(cfg.vmIpv4.value)], Return), rest, p);
      NftOne(DaddrIs(cfg.vmIpv4.value), p);
    }
  }

  lemma IptOne(m: IptMatch, p: Packet)
    ensures IptAll([m], p) <==> IptHolds(m, p)
  {
  }

  /** One rule per subnet acts like one rule over the set of subnets, for every list. */
  lemma {:induction false} PerSubnetMeans(
      subnets: seq<Cidr>, ms: seq<IptMatch>, port: Port, rest: seq<IptRule>, p: Packet)
    ensures IptRun(PerSubnet(subnets, ms, port) + rest, p) ==
            if InAny(subnets, p.src) && IptAll(ms, p) then Outcome(Redirected(port), p.mark) else IptRun(rest, p)
  {
    if subnets == [] {
      assert PerSubnet(subnets, ms, port) + rest == rest;
    } else {
      var r := IptRule([Source(subnets[0])] + ms, Redirect(port));
      var tail := PerSubnet(subnets[1..], ms, port) + rest;
      assert PerSubnet(subnets, ms, port) + rest == [r] + tail;
      IptStep(r, tail, p);
      assert r.matches[1..] == ms;
      PerSubnetMeans(subnets[1..], ms, port, rest, p);
      assert InAny(subnets, p.src) <==> Contains(subnets[0], p.src) || InAny(subnets[1..], p.src) by {
        assert subnets == [subnets[0]] + subnets[1..];
        assert forall i :: 0 < i < |subnets| ==> subnets[i] == subnets[1..][i - 1];
        assert forall i :: 0 <= i < |subnets[1..]| ==> subnets[1..][i] == subnets[i + 1];
      }
    }
  }

  lemma TcpPortsMeans(cfg: FirewallConfig, p: Packet)
    ensures IptAll(TcpPorts(cfg), p) <==> p.proto == Tcp && (cfg.commonPorts == [] || p.dport in cfg.commonPorts)
  {
    IptOne(Protocol(Tcp), p);
    IptOne(Multiport(cfg.commonPorts), p);
    assert [Protocol(Tcp), Multiport(cfg.commonPorts)][1..] == [Multiport(cfg.commonPorts)];
  }

  lemma DnsMeans(proto: Proto, p: Packet)
    ensures IptAll([Protocol(proto), Dport(53)], p) <==> p.proto == proto && p.dport == 53
  {
    IptOne(Dport(53), p);
    assert [Protocol(proto), Dport(53)][1..] == [Dport(53)];
  }

  /** iptables' prerouting chain, one rule per subnet, is this decision. */
  lemma IptPreroutingMeans(cfg: FirewallConfig, p: Packet)
    ensures IptRun(IptPreNat(cfg), p) == Outcome(
      if !Eligible(cfg, p) then Pass
      else if IsDns(p) then Redirected(cfg.dnsPort)
      else if p.proto == Tcp && (cfg.commonPorts == [] || p.dport in cfg.commonPorts) then Redirected(cfg.proxyPort)
      else Pass,
      p.mark)
  {
    hide InAny, PerSubnet, TcpPorts;
    var subnets := Subnets(cfg);
    var udp, tcp := [Protocol(Udp), Dport(53)], [Protocol(Tcp), Dport(53)];
    var tail := PerSubnet(subnets, TcpPorts(cfg), cfg.proxyPort) + [];
    TcpPortsMeans(cfg, p);
    DnsMeans(Udp, p);
    DnsMeans(Tcp, p);
    PerSubnetMeans(subnets, TcpPorts(cfg), cfg.proxyPort, [], p);
    PerSubnetMeans(subnets, tcp, cfg.dnsPort, tail, p);
    PerSubnetMeans(subnets, udp, cfg.dnsPort, PerSubnet(subnets, tcp, cfg.dnsPort) + tail, p);
    var rest := PerSubnet(subnets, udp, cfg.dnsPort) + (PerSubnet(subnets, tcp, cfg.dnsPort) + tail);
    assert [] + rest == rest;
    if cfg.ipFilter.Some? {
      var r := IptRule([Source(cfg.ipFilter.value)], Return);
      IptStep(r, rest, p);
      IptOne(Source(cfg.ipFilter.value), p);
      rest := [r] + rest;
    }
    assert [] + rest == rest;
    if cfg.vmIpv4.Some? && !cfg.vmRedir {
      IptStep(IptRule([Dest(cfg.vmIpv4.value)], Return), rest, p);
      IptOne(Dest(cfg.vmIpv4.value), p);
    }
  }

  /** The two compilers give every packet the same prerouting fate except UDP to a selected port
      other than 53, and unrestricted TCP to port 0. */
  lemma CompilersAgreeExactly(cfg: FirewallConfig, p: Packet)
    ensures CompileNft(cfg).Ok? <==> cfg.proxyPort <= 65533
    ensures CompileNft(cfg).Ok? ==>
              (NftRun(CompileNft(cfg).value.preNat, p) == IptRun(CompileIpt(cfg).preNat, p) <==> !Differs(cfg, p))
  {
    hide InAny, NftPreNat, IptPreNat;
    NftPreroutingMeans(cfg, p);
    IptPreroutingMeans(cfg, p);
  }

  lemma AgreeOnTcpAndDns(cfg: FirewallConfig, p: Packet)
    requires cfg.proxyPort <= 65533
    requires (p.proto == Tcp && 1 <= p.dport) || (p.proto == Udp && p.dport == 53)
    ensures NftRun(CompileNft(cfg).value.preNat, p) == IptRun(CompileIpt(cfg).preNat, p)
  {
    hide InAny, NftPreNat, IptPreNat, NftRun, IptRun;
    CompilersAgreeExactly(cfg, p);
  }

  // ---------------------------------------------------------------- who is never touched

  /** A packet from outside every hijack subnet is neither redirected, tproxied nor marked in
      prerouting, by either backend. */
  lemma OnlyLanIsHijacked(cfg: FirewallConfig, p: Packet)
    requires !InAny(Subnets(cfg), p.src)
    ensures var untouched := Outcome(Pass, p.mark);
            && (CompileNft(cfg).Ok? ==>
                  var s := CompileNft(cfg).value;
                  NftHook(s.preMangle, s.preNat, p) == HookOutcome(untouched, untouched))
            && IptHook([], CompileIpt(cfg).preNat, p) == HookOutcome(untouched, untouched)
  {
    hide InAny, NftPreNat, IptPreNat, NftInput;
    NftPreroutingMeans(cfg, p);
    IptPreroutingMeans(cfg, p);
    if CompileNft(cfg).Ok? { TproxiedExactly(cfg, p); }
    assert p.(mark := p.mark) == p;
  }

  /** nft tproxies exactly the TCP and UDP of the LAN, exactly in TUN mode, and the mark it sets
      takes the packet past the listener guard. */
  lemma TproxiedExactly(cfg: FirewallConfig, p: Packet)
    requires CompileNft(cfg).Ok?
    ensures var s := CompileNft(cfg).value;
            var tproxied := cfg.tunPort.Some? && p.proto != OtherProto && InAny(Subnets(cfg), p.src);
            && NftRun(s.preMangle, p) ==
               (if tproxied then Outcome(Tproxied(cfg.tunPort.value), FWMARK) else Outcome(Pass, p.mark))
            && (tproxied ==> NftRun(s.input, p.(mark := NftRun(s.preMangle, p).mark)).verdict == Pass)
  {
    hide InAny, NftPreNat, NftPortFilter, GuardedPorts, NftMacRules;
    var lan := SaddrIn(Subnets(cfg));
    NftTwo(lan, L4TcpUdp, p);
    MarkedEnters(cfg, p.(mark := FWMARK));
    if cfg.tunPort.Some? {
      var r := NftRule([lan, L4TcpUdp], Tproxy(FWMARK, cfg.tunPort.value));
      NftStep(r, [], p);
      assert [r] + [] == [r];
    }
  }

  lemma MarkedEnters(cfg: FirewallConfig, p: Packet)
    requires cfg.proxyPort <= 65533 && p.mark == FWMARK
    ensures NftRun(NftInput(cfg), p).verdict == Pass
  {
    hide GuardedPorts, NftMacRules;
    var rules := NftInput(cfg);
    NftOne(CtEstablished, p);
    NftOne(MetaMark(FWMARK), p);
    assert rules == [rules[0]] + ([rules[1]] + rules[2..]);
    NftStep(rules[0], [rules[1]] + rules[2..], p);
    NftStep(rules[1], rules[2..], p);
  }

  predicate Exempt(p: Packet) { p.mark == 0x80000 || p.gid == 453 || p.gid == 7890 }

  lemma NftExemptMeans(rest: seq<NftRule>, p: Packet)
    ensures NftRun(NftExempt() + rest, p) == if Exempt(p) then Outcome(Pass, p.mark) else NftRun(rest, p)
  {
    var m, g := NftRule([MetaMark(FWMARK)], Return), NftRule([MetaSkgid(EXEMPT_GIDS)], Return);
    assert NftExempt() + rest == [m] + ([g] + rest);
    NftStep(m, [g] + rest, p);
    NftStep(g, rest, p);
    NftOne(MetaMark(FWMARK), p);
    NftOne(MetaSkgid(EXEMPT_GIDS), p);
  }

  lemma IptExemptMeans(rest: seq<IptRule>, p: Packet)
    ensures IptRun(IptExempt() + rest, p) == if Exempt(p) then Outcome(Pass, p.mark) else IptRun(rest, p)
  {
    var m, g, h := IptRule([Mark(FWMARK)], Return), IptRule([GidOwner(453)], Return), IptRule([GidOwner(7890)], Return);
    assert IptExempt() + rest == [m] + ([g] + ([h] + rest));
    IptStep(m, [g] + ([h] + rest), p);
    IptStep(g, [h] + rest, p);
    IptStep(h, rest, p);
    IptOne(Mark(FWMARK), p);
    IptOne(GidOwner(453), p);
    IptOne(GidOwner(7890), p);
  }

  lemma NftMarkRule(p: Packet)
    ensures NftRun([NftRule([], SetMark(FWMARK))], p) == Outcome(Pass, FWMARK)
  {
    NftStep(NftRule([], SetMark(FWMARK)), [], p);
  }

  lemma IptMarkRule(p: Packet)
    ensures IptRun([IptRule([], SetMark(FWMARK))], p) == Outcome(Pass, FWMARK)
  {
    IptStep(IptRule([], SetMark(FWMARK)), [], p);
  }

  function NftOutput(cfg: FirewallConfig, p: Packet): HookOutcome
    requires CompileNft(cfg).Ok?
  {
    NftHook(CompileNft(cfg).value.outMangle, CompileNft(cfg).value.outNat, p)
  }

  function IptOutput(cfg: FirewallConfig, p: Packet): HookOutcome {
    IptHook(CompileIpt(cfg).outMangle, CompileIpt(cfg).outNat, p)
  }

  /** What the two output hooks do with a local packet. With iptables, mangle marks every packet
      that is not exempt, so nat OUTPUT returns it: its redirect is never reached. With nft the
      same happens exactly in TUN mode. */
  lemma OutputFates(cfg: FirewallConfig, p: Packet)
    ensures var mark := if Exempt(p) then p.mark else FWMARK;
            IptOutput(cfg, p) == HookOutcome(Outcome(Pass, mark), Outcome(Pass, mark))
    ensures CompileNft(cfg).Ok? ==>
              var mark := if cfg.tunPort.Some? && !Exempt(p) then FWMARK else p.mark;
              NftOutput(cfg, p) == HookOutcome(
                Outcome(Pass, mark),
                Outcome(if cfg.tunPort.None? && !Exempt(p) && p.proto != OtherProto && Selected(cfg, p.dport)
                        then Redirected(cfg.proxyPort) else Pass, mark))
  {
    hide NftPreNat, IptPreNat, NftInput, NftPortFilter, IptMacRules, TcpPorts;
    var mark := if Exempt(p) then p.mark else FWMARK;
    var marked := p.(mark := mark);
    IptExemptMeans([IptRule([], SetMark(FWMARK))], p);
    IptMarkRule(p);
    IptExemptMeans([IptRule(TcpPorts(cfg), Redirect(cfg.proxyPort))], marked);
    NftExemptMeans([NftRule([], SetMark(FWMARK))], p);
    NftMarkRule(p);
    NftExemptMeans(NftPortFilter(cfg, []), marked);
    NftExemptMeans(NftPortFilter(cfg, []), p);
    NftPortFilterMeans(cfg, [], p);
    assert p.(mark := p.mark) == p;
  }

  /** The proxy's own traffic leaves the box unmarked and unredirected, by either backend. */
  lemma ExemptTrafficPasses(cfg: FirewallConfig, p: Packet)
    requires p.mark == FWMARK || p.gid == 453 || p.gid == 7890
    ensures var untouched := HookOutcome(Outcome(Pass, p.mark), Outcome(Pass, p.mark));
            IptOutput(cfg, p) == untouched && (CompileNft(cfg).Ok? ==> NftOutput(cfg, p) == untouched)
  {
    hide NftOutput, IptOutput, CompileNft;
    OutputFates(cfg, p);
  }

  // ---------------------------------------------------------------- the listener guard

  predicate MacDropped(cfg: FirewallConfig, p: Packet) {
    cfg.macFilter.Some? && cfg.macFilter.value.Blacklist? && p.mac in cfg.macFilter.value.addrs
  }

  lemma {:induction false} NftMacsMean(addrs: seq<string>, action: Action, rules: seq<NftRule>, p: Packet)
    requires action == Drop || action == Accept
    requires |rules| == |addrs| && forall i :: 0 <= i < |addrs| ==> rules[i] == NftRule([EtherSaddr(addrs[i])], action)
    ensures NftRun(rules, p) == Outcome(if action == Drop && p.mac in addrs then Dropped else Pass, p.mark)
  {
    if addrs != [] {
      NftOne(EtherSaddr(addrs[0]), p);
      NftMacsMean(addrs[1..], action, rules[1..], p);
    }
  }

  lemma {:induction false} IptMacsMean(addrs: seq<string>, action: Action, rules: seq<IptRule>, p: Packet)
    requires action == Drop || action == Accept
    requires |rules| == |addrs| && forall i :: 0 <= i < |addrs| ==> rules[i] == IptRule([MacSource(addrs[i])], action)
    ensures IptRun(rules, p) == Outcome(if action == Drop && p.mac in addrs then Dropped else Pass, p.mark)
  {
    if addrs != [] {
      IptOne(MacSource(addrs[0]), p);
      IptMacsMean(addrs[1..], action, rules[1..], p);
    }
  }

  /** A TCP connection to a port the guard protects: the mixed, proxy, DNS and tproxy listeners. */
  predicate IsListener(cfg: FirewallConfig, p: Packet) {
    && p.proto == Tcp
    && (p.dport == cfg.mixedPort || p.dport == cfg.proxyPort || p.dport == cfg.dnsPort
        || p.dport == if cfg.tunPort.Some? then cfg.tunPort.value else cfg.proxyPort + 2)
  }

  /** Known to the firewall already: of an established connection, or carrying its mark. */
  predicate Known(p: Packet) { p.established || p.mark == 0x80000 }

  /** nft: the fate of every packet at the INPUT chain. */
  lemma NftInputFate(cfg: FirewallConfig, p: Packet)
    requires cfg.proxyPort <= 65533
    ensures NftRun(NftInput(cfg), p) == Outcome(
      if Known(p) then Pass
      else if IsListener(cfg, p) then (if InAny(Subnets(cfg), p.src) then Pass else Dropped)
      else if MacDropped(cfg, p) then Dropped else Pass,
      p.mark)
  {
    hide InAny, NftMacRules, NftRun, NftAll, Subnets, MacDropped;
    var lan, listeners := SaddrIn(Subnets(cfg)), TcpDport(Listed(GuardedPorts(cfg)));
    var rest := NftMacRules(cfg);
    MacRulesMean(cfg, p);
    NftTwo(lan, listeners, p);
    NftOne(listeners, p);
    NftOne(CtEstablished, p);
    NftOne(MetaMark(FWMARK), p);
    var a, b := NftRule([CtEstablished], Accept), NftRule([MetaMark(FWMARK)], Return);
    var c, d := NftRule([lan, listeners], Accept), NftRule([listeners], Drop);
    NftStep(d, rest, p);
    NftStep(c, [d] + rest, p);
    NftStep(b, [c] + ([d] + rest), p);
    NftStep(a, [b] + ([c] + ([d] + rest)), p);
    assert NftInput(cfg) == [a] + ([b] + ([c] + ([d] + rest)));
  }

  /** iptables: for every packet, what is known passes and the MAC alone decides the rest. */
  lemma IptInputFate(cfg: FirewallConfig, p: Packet)
    ensures IptRun(CompileIpt(cfg).input, p) ==
            Outcome(if !Known(p) && MacDropped(cfg, p) then Dropped else Pass, p.mark)
  {
    hide IptMacRules, IptRun, IptAll, MacDropped, IptPreNat;
    var e, f := IptRule([StateEstablished], Accept), IptRule([Mark(FWMARK)], Return);
    MacRulesMean(cfg, p);
    IptOne(StateEstablished, p);
    IptOne(Mark(FWMARK), p);
    IptStep(f, IptMacRules(cfg), p);
    IptStep(e, [f] + IptMacRules(cfg), p);
    assert CompileIpt(cfg).input == [e] + ([f] + IptMacRules(cfg));
  }

  lemma MacRulesMean(cfg: FirewallConfig, p: Packet)
    ensures NftRun(NftMacRules(cfg), p) == Outcome(if MacDropped(cfg, p) then Dropped else Pass, p.mark)
    ensures IptRun(IptMacRules(cfg), p) == Outcome(if MacDropped(cfg, p) then Dropped else Pass, p.mark)
  {
    if cfg.macFilter.Some? {
      var f := cfg.macFilter.value;
      var action := if f.Blacklist? then Drop else Accept;
      NftMacsMean(f.addrs, action, NftMacRules(cfg), p);
      IptMacsMean(f.addrs, action, IptMacRules(cfg), p);
    }
  }

  /** The INPUT chains disagree on exactly the new, unmarked listener connections whose LAN
      membership and MAC standing do not point opposite ways: only nft guards the listeners, and it
      does so before looking at the MAC. */
  lemma InputsAgreeExactly(cfg: FirewallConfig, p: Packet)
    requires cfg.proxyPort <= 65533
    ensures NftRun(NftInput(cfg), p) == IptRun(CompileIpt(cfg).input, p)
            <==> (!Known(p) && IsListener(cfg, p) ==> InAny(Subnets(cfg), p.src) != MacDropped(cfg, p))
  {
    hide InAny, NftInput, NftRun, IptRun, CompileIpt;
    NftInputFate(cfg, p);
    IptInputFate(cfg, p);
  }

  lemma NothingLeft(p: Packet)
    ensures NftRun([], p) == Outcome(Pass, p.mark) && IptRun([], p) == Outcome(Pass, p.mark)
  {
  }

  /** Both backends, every packet: FORWARD drops exactly new QUIC, exactly when QUIC is rejected. */
  lemma ForwardFates(cfg: FirewallConfig, p: Packet)
    ensures var fate := Outcome(
              if cfg.quicReject && !p.established && p.proto == Udp && p.dport == 443 then Dropped else Pass, p.mark);
            && IptRun(CompileIpt(cfg).forward, p) == fate
            && (CompileNft(cfg).Ok? ==> NftRun(CompileNft(cfg).value.forward, p) == fate)
  {
    hide NftPreNat, IptPreNat, NftInput, IptMacRules, NftPortFilter, NftRun, IptRun, NftAll;
    var a, b := NftRule([CtEstablished], Accept), NftRule([UdpDport(Listed([443]))], Drop);
    NothingLeft(p);
    NftOne(CtEstablished, p);
    NftOne(UdpDport(Listed([443])), p);
    NftStep(b, [], p);
    NftStep(a, [b], p);
    NftStep(a, [], p);
    assert [b] + [] == [b] && [a] + [] == [a];
    var c, d := IptRule([StateEstablished], Accept), IptRule([Protocol(Udp), Dport(443)], Drop);
    IptOne(StateEstablished, p);
    IptOne(Dport(443), p);
    assert [Protocol(Udp), Dport(443)][1..] == [Dport(443)];
    IptStep(d, [], p);
    IptStep(c, [d], p);
    IptStep(c, [], p);
    assert [d] + [] == [d] && [c] + [] == [c];
  }

  /** nft: a TCP packet that prerouting redirects is let in by the guard at its new port. */
  lemma RedirectedTcpReachesListener(cfg: FirewallConfig, p: Packet)
    requires cfg.proxyPort <= 65533 && p.proto == Tcp
    requires NftRun(NftPreNat(cfg), p).verdict.Redirected?
    ensures NftRun(NftInput(cfg), p.(dport := NftRun(NftPreNat(cfg), p).verdict.port)).verdict == Pass
  {
    hide InAny, NftPreNat, NftInput, NftRun;
    NftPreroutingMeans(cfg, p);
    NftInputFate(cfg, p.(dport := NftRun(NftPreNat(cfg), p).verdict.port));
  }

  /** What becomes of a new QUIC packet of an eligible LAN client that is to be forwarded: with
      iptables it is dropped exactly when QUIC is rejected; with nft it never gets that far when
      port 443 is selected, because prerouting redirects it to the proxy. */
  lemma QuicFates(cfg: FirewallConfig, p: Packet)
    requires cfg.proxyPort <= 65533 && Eligible(cfg, p) && p.proto == Udp && p.dport == 443 && !p.established
    ensures var s := CompileIpt(cfg);
            && IptRun(s.preNat, p).verdict == Pass
            && IptRun(s.forward, p).verdict == if cfg.quicReject then Dropped else Pass
    ensures var s := CompileNft(cfg).value;
            if Selected(cfg, 443) then NftRun(s.preNat, p).verdict == Redirected(cfg.proxyPort)
            else NftRun(s.preNat, p).verdict == Pass
                 && NftRun(s.forward, p).verdict == if cfg.quicReject then Dropped else Pass
  {
    hide InAny, NftPreNat, IptPreNat, NftRun, IptRun, Excluded;
    NftPreroutingMeans(cfg, p);
    IptPreroutingMeans(cfg, p);
    ForwardFates(cfg, p);
  }

  // ---------------------------------------------------------------- address ranges

  lemma QuotientRange(size: nat, q: nat, addr: nat)
    requires size > 0
    ensures addr / size == q <==> q * size <= addr < q * size + size
  {
    if addr / size == q {
      assert addr == q * size + addr % size;
    } else if q * size <= addr < q * size + size {
      DivModIs(addr, size, q, addr - q * size);
    }
  }

  /** A network whose base is aligned holds exactly its range of addresses. */
  lemma ContainsRange(c: Cidr, addr: nat)
    requires c.bits <= 32 && Pow2(32 - c.bits) > 0 && c.base % Pow2(32 - c.bits) == 0
    ensures Contains(c, addr) <==> c.base <= addr < c.base + Pow2(32 - c.bits)
  {
    hide Pow2;
    var size := Pow2(32 - c.bits);
    assert c.base == (c.base / size) * size;
    QuotientRange(size, c.base / size, addr);
  }

  /** Without configured subnets the LAN is exactly 192.168.0.0 to 192.168.255.255, 10.0.0.0 to
      10.255.255.255 and 172.16.0.0 to 172.31.255.255. */
  lemma DefaultLan(cfg: FirewallConfig, addr: nat)
    requires cfg.hijackSubnets == []
    ensures InAny(Subnets(cfg), addr) <==>
            || 0xC0A8_0000 <= addr <= 0xC0A8_FFFF
            || 0x0A00_0000 <= addr <= 0x0AFF_FFFF
            || 0xAC10_0000 <= addr <= 0xAC1F_FFFF
  {
    hide Contains;
    assert Pow2(16) == 0x1_0000 && Pow2(8) == 0x100 && Pow2(4) == 0x10;
    PowersMultiply(16, 8);
    PowersMultiply(16, 4);
    var nets := DEFAULT_SUBNETS;
    ContainsRange(nets[0], addr);
    ContainsRange(nets[1], addr);
    ContainsRange(nets[2], addr);
  }
}
