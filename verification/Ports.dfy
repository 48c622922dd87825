/** The listener ports: their derivation (core/src/rules.rs), their validation
    (core/src/validate.rs), the firewall view of them (core/src/config.rs) and the firewall's own
    port walk (core/src/firewall.rs). */
module Ports {
  import opened Common
  import opened Hijack

  datatype Config = Config(
    proxyPort: Port, dnsPort: Port, dashboardPort: Port, mixedPort: Option<Port>,
    tunPort: Option<Port>, tunEnabled: bool, apiEnabled: bool, apiPort: Port,
    kernel: string, kernelCompiledIn: bool, variant: string, mode: string, dnsMode: string,
    autoUpdate: bool, updateInterval: string,
    vmIpv4: Option<Cidr>, vmRedir: bool, macFilter: Option<MacFilter>, ipFilter: Option<Cidr>,
    quicReject: bool, commonPorts: seq<Port>, hijackSubnets: seq<Cidr>)

  // ---------------------------------------------------------------- derive_tproxy_port

  predicate Occupied(config: Config, port: nat) {
    port == config.proxyPort || (config.mixedPort.Some? && port == config.mixedPort.value)
    || port == config.dnsPort || port == config.dashboardPort
  }

  /** The first port at or after `candidate` that no listener occupies. */
  function FirstFree(config: Config, candidate: nat): Result<Port>
    decreases 0x1_0000 - candidate
  {
    if candidate > 65535 then Err
    else if !Occupied(config, candidate) then Ok(candidate)
    else FirstFree(config, candidate + 1)
  }

  function Derived(config: Config): Result<Port> { FirstFree(config, config.proxyPort + 2) }

  lemma {:induction false} FirstFreeExact(config: Config, candidate: nat)
    ensures var r := FirstFree(config, candidate);
            && (r.Ok? ==> candidate <= r.value && !Occupied(config, r.value)
                          && forall q :: candidate <= q < r.value ==> Occupied(config, q))
            && (r.Err? <==> forall q :: candidate <= q <= 65535 ==> Occupied(config, q))
    decreases 0x1_0000 - candidate
  {
    if candidate <= 65535 && Occupied(config, candidate) { FirstFreeExact(config, candidate + 1); }
  }

  /** The derived port is the least free one past the proxy, at most three steps away; the
      derivation fails exactly when every port up to 65535 is taken, so never up to 65530. */
  lemma DerivedIsLeastFree(config: Config)
    ensures var r := Derived(config);
            && (r.Ok? ==> config.proxyPort + 2 <= r.value <= config.proxyPort + 5 && !Occupied(config, r.value)
                          && forall q :: config.proxyPort + 2 <= q < r.value ==> Occupied(config, q))
            && (r.Err? <==> forall q :: config.proxyPort + 2 <= q <= 65535 ==> Occupied(config, q))
            && (r.Err? ==> config.proxyPort > 65530)
  {
    var p: nat := config.proxyPort;
    FirstFreeExact(config, p + 2);
    assert !Occupied(config, p + 2) || !Occupied(config, p + 3) || !Occupied(config, p + 4) || !Occupied(config, p + 5);
  }

  /** `derive_tproxy_port`: the loop on `offset`, with the number of candidates it looks at. */
  method DeriveTproxyPort(config: Config) returns (r: Result<Port>, examined: nat)
    ensures r == Derived(config)
    ensures examined <= 4
  {
    var offset := 2;
    examined := 0;
    DerivedIsLeastFree(config);
    while true
      invariant 2 <= offset && examined == offset - 2
      invariant FirstFree(config, config.proxyPort + offset) == Derived(config)
      invariant forall q :: config.proxyPort + 2 <= q < config.proxyPort + offset ==> Occupied(config, q)
      decreases 65536 - (config.proxyPort + offset)
    {
      assert !Occupied(config, config.proxyPort + 2) || !Occupied(config, config.proxyPort + 3)
        || !Occupied(config, config.proxyPort + 4) || !Occupied(config, config.proxyPort + 5);
      var candidate := config.proxyPort + offset;
      if candidate > 65535 { return Err, examined; }
      examined := examined + 1;
      if !Occupied(config, candidate) { return Ok(candidate), examined; }
      offset := offset + 1;
    }
  }

  /** The port the kernel will listen on for tproxy. */
  function Tproxy(config: Config): Result<Port> {
    if config.tunPort.Some? then Ok(config.tunPort.value) else Derived(config)
  }

  // ---------------------------------------------------------------- the firewall's own walk

  function Wrap(n: nat): Port { n % 0x1_0000 }

  predicate FirewallSkips(proxy: Port, dns: Port, port: Port) {
    port != 0 && (port == proxy || port == Wrap(proxy + 1) || port == dns)
  }

  /** The port walk of the dual-stack script, which wraps at 16 bits and stops at 0. */
  method FirewallWalk(proxy: Port, dns: Port) returns (candidate: Port)
    ensures !FirewallSkips(proxy, dns, candidate)
    ensures proxy <= 65530 ==> candidate == if dns == proxy + 2 then proxy + 3 else proxy + 2
  {
    candidate := Wrap(proxy + 2);
    while FirewallSkips(proxy, dns, candidate)
      invariant proxy <= 65530 ==> candidate == proxy + 2 || (dns == proxy + 2 && candidate == proxy + 3)
      decreases if candidate == 0 then 0 else 0x1_0000 - candidate
    {
      candidate := Wrap(candidate + 1);
    }
  }

  /** The firewall's walk and the shared derivation pick the same port exactly when the firewall's
      pick is neither the mixed nor the dashboard port. */
  lemma WalksAgreeExactly(config: Config, pick: Port)
    requires config.proxyPort <= 65530
    requires pick == if config.dnsPort == config.proxyPort + 2 then config.proxyPort + 3 else config.proxyPort + 2
    ensures Derived(config) == Ok(pick) <==> config.mixedPort != Some(pick) && config.dashboardPort != pick
  {
    DerivedIsLeastFree(config);
    assert Occupied(config, pick) <==> config.mixedPort == Some(pick) || config.dashboardPort == pick;
  }

  // ---------------------------------------------------------------- the three readers of the ports

  datatype Listeners = Listeners(mixed: Port, redir: Port, tproxy: Port, dns: Port)

  /** The ports of `general_section`. Both derivations are computed even where a configured port
      makes them unnecessary. */
  function GeneralSection(config: Config): Result<Listeners> {
    if config.proxyPort + 1 > 65535 || Derived(config).Err? then Err
    else Ok(Listeners(
              if config.mixedPort.Some? then config.mixedPort.value else config.proxyPort + 1,
              config.proxyPort,
              if config.tunPort.Some? then config.tunPort.value else Derived(config).value,
              config.dnsPort))
  }

  /** `to_firewall_config`. */
  function ToFirewallConfig(config: Config): Result<FirewallConfig> {
    if config.tunEnabled && config.tunPort.None? && Derived(config).Err? then Err
    else Ok(FirewallConfig(
              if !config.tunEnabled then None
              else if config.tunPort.Some? then config.tunPort
              else Some(Derived(config).value),
              config.vmIpv4, config.vmRedir, config.macFilter, config.ipFilter, config.quicReject, config.commonPorts,
              config.dnsPort, config.proxyPort,
              if config.mixedPort.Some? then config.mixedPort.value else Wrap(config.proxyPort + 1),
              if config.hijackSubnets == [] then DEFAULT_SUBNETS else config.hijackSubnets))
  }

  // ---------------------------------------------------------------- validation

  class ValidationResult {
    var isValid: bool
    var errors: seq<string>

    ghost predicate Consistent()
      reads this
    {
      isValid <==> errors == []
    }

    constructor ()
      ensures Consistent() && errors == []
    {
      isValid, errors := true, [];
    }

    method AddError(field: string)
      modifies this
      ensures errors == old(errors) + [field] && !isValid && Consistent()
    {
      errors := errors + [field];
      isValid := false;
    }

    method AddErrorIf(bad: bool, field: string)
      modifies this
      ensures errors == old(errors) + ErrorIf(bad, field)
      ensures old(Consistent()) ==> Consistent()
    {
      if bad { AddError(field); }
    }

    method Merge(other: ValidationResult)
      requires Consistent() && other.Consistent()
      modifies this
      ensures Consistent() && errors == old(errors) + old(other.errors)
    {
      errors := errors + other.errors;
      if !other.isValid { isValid := false; }
    }
  }

  function ErrorIf(bad: bool, field: string): seq<string> { if bad then [field] else [] }

  /** The errors after the port range checks, in the order they are reported. */
  function RangeErrors(errors: seq<string>, config: Config): seq<string> {
    errors + ErrorIf(config.proxyPort < 1, "proxy_port") + ErrorIf(config.dnsPort < 1, "dns_port")
    + ErrorIf(config.mixedPort.Some? && config.mixedPort.value < 1, "mixed_port")
    + ErrorIf(config.tunPort.Some? && config.tunPort.value < 1, "tun_port")
    + ErrorIf(config.dashboardPort < 1, "dashboard_port")
  }

  function TextErrors(errors: seq<string>, config: Config): seq<string> {
    errors + ErrorIf(config.kernel == "", "kernel") + ErrorIf(!config.kernelCompiledIn, "kernel")
    + ErrorIf(config.variant == "", "variant")
    + ErrorIf(config.mode !in ["Router", "Local", "Pure"], "mode")
    + ErrorIf(config.dnsMode !in ["FakeIp", "RedirHost", "Mix", "Local"], "dns_mode")
  }

  function FixedConflicts(errors: seq<string>, config: Config): seq<string> {
    errors + ErrorIf(config.proxyPort == config.dnsPort, "proxy_port")
    + ErrorIf(config.proxyPort == config.dashboardPort, "proxy_port")
    + ErrorIf(Some(config.proxyPort) == config.mixedPort, "mixed_port")
    + ErrorIf(config.apiEnabled && config.apiPort == config.dashboardPort, "api_port")
    + ErrorIf(config.proxyPort > 65533, "proxy_port")
  }

  function TproxyConflicts(errors: seq<string>, config: Config, tproxy: Port): seq<string> {
    errors + ErrorIf(config.mixedPort == Some(tproxy), "mixed_port")
    + ErrorIf(config.tunPort == Some(config.proxyPort), "tun_port")
    + ErrorIf(config.tunPort.Some? && config.mixedPort == config.tunPort, "tun_port")
    + ErrorIf(config.tunPort == Some(config.dnsPort), "tun_port")
    + ErrorIf(config.tunPort == Some(config.dashboardPort), "tun_port")
    + ErrorIf(config.mixedPort == Some(config.dnsPort), "mixed_port")
  }

  function ConflictErrors(errors: seq<string>, config: Config): seq<string> {
    if Tproxy(config).Err? then FixedConflicts(errors, config) + ["proxy_port"]
    else TproxyConflicts(FixedConflicts(errors, config), config, Tproxy(config).value)
  }

  function Errors(config: Config, strict: bool): seq<string> {
    ConflictErrors(TextErrors(RangeErrors([], config), config), config)
    + ErrorIf(strict && config.autoUpdate && config.updateInterval == "", "update_interval")
  }

  method ValidatePorts(config: Config, result: ValidationResult)
    requires result.Consistent()
    modifies result
    ensures result.Consistent() && result.errors == RangeErrors(old(result.errors), config)
  {
    hide ErrorIf;
    result.AddErrorIf(config.proxyPort < 1, "proxy_port");
    result.AddErrorIf(config.dnsPort < 1, "dns_port");
    result.AddErrorIf(config.mixedPort.Some? && config.mixedPort.value < 1, "mixed_port");
    result.AddErrorIf(config.tunPort.Some? && config.tunPort.value < 1, "tun_port");
    result.AddErrorIf(config.dashboardPort < 1, "dashboard_port");
  }

  method CheckFixedConflicts(config: Config, result: ValidationResult)
    requires result.Consistent()
    modifies result
    ensures result.Consistent() && result.errors == FixedConflicts(old(result.errors), config)
  {
    hide ErrorIf;
    result.AddErrorIf(config.proxyPort == config.dnsPort, "proxy_port");
    result.AddErrorIf(config.proxyPort == config.dashboardPort, "proxy_port");
    result.AddErrorIf(Some(config.proxyPort) == config.mixedPort, "mixed_port");
    result.AddErrorIf(config.apiEnabled && config.apiPort == config.dashboardPort, "api_port");
    result.AddErrorIf(config.proxyPort > 65533, "proxy_port");
  }

  method CheckTproxyConflicts(config: Config, tproxy: Port, result: ValidationResult)
    requires result.Consistent()
    modifies result
    ensures result.Consistent() && result.errors == TproxyConflicts(old(result.errors), config, tproxy)
  {
    hide ErrorIf;
    result.AddErrorIf(config.mixedPort == Some(tproxy), "mixed_port");
    result.AddErrorIf(config.tunPort == Some(config.proxyPort), "tun_port");
    result.AddErrorIf(config.tunPort.Some? && config.mixedPort == config.tunPort, "tun_port");
    result.AddErrorIf(config.tunPort == Some(config.dnsPort), "tun_port");
    result.AddErrorIf(config.tunPort == Some(config.dashboardPort), "tun_port");
    result.AddErrorIf(config.mixedPort == Some(config.dnsPort), "mixed_port");
  }

  method ValidatePortsAvailable(config: Config, result: ValidationResult)
    requires result.Consistent()
    modifies result
    ensures result.Consistent() && result.errors == ConflictErrors(old(result.errors), config)
  {
    hide FixedConflicts, TproxyConflicts, Derived;
    CheckFixedConflicts(config, result);
    var tproxy: Port;
    if config.tunPort.Some? {
      tproxy := config.tunPort.value;
    } else {
      var derived, _ := DeriveTproxyPort(config);
      if derived.Err? {
        result.AddError("proxy_port");
        return;
      }
      tproxy := derived.value;
    }
    CheckTproxyConflicts(config, tproxy, result);
  }

  /** `validate`: valid exactly when no error was recorded. */
  method Validate(config: Config, strict: bool) returns (result: ValidationResult)
    ensures fresh(result) && result.errors == Errors(config, strict)
    ensures result.isValid <==> Errors(config, strict) == []
  {
    hide RangeErrors, ConflictErrors, ErrorIf;
    result := new ValidationResult();
    ValidatePorts(config, result);
    result.AddErrorIf(config.kernel == "", "kernel");
    result.AddErrorIf(!config.kernelCompiledIn, "kernel");
    result.AddErrorIf(config.variant == "", "variant");
    result.AddErrorIf(config.mode !in ["Router", "Local", "Pure"], "mode");
    result.AddErrorIf(config.dnsMode !in ["FakeIp", "RedirHost", "Mix", "Local"], "dns_mode");
    ValidatePortsAvailable(config, result);
    result.AddErrorIf(strict && config.autoUpdate && config.updateInterval == "", "update_interval");
    if result.errors == [] { result.isValid := true; }
  }

  predicate ApartFrom(port: Port, config: Config) {
    port != config.dnsPort && port != config.dashboardPort && config.mixedPort != Some(port)
  }

  predicate PortsInRange(config: Config) {
    1 <= config.proxyPort && 1 <= config.dnsPort && 1 <= config.dashboardPort
    && config.mixedPort != Some(0) && config.tunPort != Some(0)
  }

  predicate ListenersApart(config: Config) {
    && config.proxyPort <= 65533 && ApartFrom(config.proxyPort, config)
    && !(config.apiEnabled && config.apiPort == config.dashboardPort)
    && config.mixedPort != Some(config.dnsPort)
    && Tproxy(config).Ok? && Tproxy(config).value != config.proxyPort && ApartFrom(Tproxy(config).value, config)
  }

  predicate TextsOk(config: Config) {
    config.kernel != "" && config.kernelCompiledIn && config.variant != ""
    && config.mode in ["Router", "Local", "Pure"] && config.dnsMode in ["FakeIp", "RedirHost", "Mix", "Local"]
  }

  lemma RangeErrorsExactly(errors: seq<string>, config: Config)
    ensures RangeErrors(errors, config) == [] <==> errors == [] && PortsInRange(config)
  {
  }

  lemma TextErrorsExactly(errors: seq<string>, config: Config)
    ensures TextErrors(errors, config) == [] <==> errors == [] && TextsOk(config)
  {
  }

  lemma ConflictErrorsExactly(errors: seq<string>, config: Config)
    ensures ConflictErrors(errors, config) == [] <==> errors == [] && ListenersApart(config)
  {
    hide Derived;
    DerivedIsLeastFree(config);
  }

  /** A configuration is valid exactly when its texts are known, its ports are in range and
      these listeners are pairwise apart. */
  lemma ValidExactly(config: Config, strict: bool)
    ensures Errors(config, strict) == [] <==>
            && PortsInRange(config) && TextsOk(config) && ListenersApart(config)
            && !(strict && config.autoUpdate && config.updateInterval == "")
  {
    hide RangeErrors, TextErrors, ConflictErrors, PortsInRange, TextsOk, ListenersApart;
    RangeErrorsExactly([], config);
    TextErrorsExactly(RangeErrors([], config), config);
    ConflictErrorsExactly(TextErrors(RangeErrors([], config), config), config);
  }

  /** A valid configuration without a TUN port yields a kernel section, and with TUN enabled the
      firewall's tproxy port is the kernel's. With a TUN port set the section exists exactly when
      the unused derivation also succeeds. */
  lemma KernelAndFirewallAgree(config: Config, strict: bool)
    requires Errors(config, strict) == []
    ensures GeneralSection(config).Ok? <==> config.tunPort.None? || Derived(config).Ok?
    ensures ToFirewallConfig(config).Ok?
    ensures GeneralSection(config).Ok? ==>
              var kernel, firewall := GeneralSection(config).value, ToFirewallConfig(config).value;
              && kernel.tproxy == Tproxy(config).value && kernel.mixed == firewall.mixedPort
              && kernel.redir == firewall.proxyPort && kernel.dns == firewall.dnsPort
    ensures config.tunEnabled ==> ToFirewallConfig(config).value.tunPort == Some(Tproxy(config).value)
  {
    hide Derived, Errors;
    ValidExactly(config, strict);
  }

  /** The firewall built from a configuration does with every packet what the configuration says:
      who is eligible, which ports are taken, which MAC and which QUIC is dropped. */
  lemma FirewallFollowsConfig(config: Config, p: Packet)
    requires ToFirewallConfig(config).Ok?
    ensures var firewall := ToFirewallConfig(config).value;
            && (Eligible(firewall, p) <==>
                  && !(config.vmIpv4.Some? && !config.vmRedir && Contains(config.vmIpv4.value, p.dst))
                  && !(config.ipFilter.Some? && Contains(config.ipFilter.value, p.src))
                  && InAny(if config.hijackSubnets == [] then DEFAULT_SUBNETS else config.hijackSubnets, p.src))
            && (Selected(firewall, p.dport) <==>
                  if config.commonPorts == [] then p.dport != 0 else p.dport in config.commonPorts)
            && (MacDropped(firewall, p) <==>
                  config.macFilter.Some? && config.macFilter.value.Blacklist? && p.mac in config.macFilter.value.addrs)
            && (IptRun(CompileIpt(firewall).forward, p).verdict == Dropped <==>
                  config.quicReject && !p.established && p.proto == Udp && p.dport == 443)
            && (Eligible(firewall, p) && IsDns(p) ==>
                  IptRun(CompileIpt(firewall).preNat, p).verdict == Redirected(config.dnsPort))
  {
    hide InAny, Contains, CompileIpt, IptRun, IptPreNat;
    var firewall := ToFirewallConfig(config).value;
    ForwardFates(firewall, p);
    IptPreroutingMeans(firewall, p);
    assert CompileIpt(firewall).preNat == IptPreNat(firewall) by { PreNatIs(firewall); }
  }

  lemma PreNatIs(firewall: FirewallConfig)
    ensures CompileIpt(firewall).preNat == IptPreNat(firewall)
  {
  }

  /** The nft input guard covers the kernel's tproxy listener exactly when TUN is enabled or the
      listener happens to sit where the firewall looks for it. */
  lemma GuardCoversTproxyExactly(config: Config, strict: bool)
    requires Errors(config, strict) == []
    ensures ToFirewallConfig(config).value.proxyPort <= 65533
    ensures Tproxy(config).value in GuardedPorts(ToFirewallConfig(config).value) <==>
            || config.tunEnabled
            || Tproxy(config).value == config.proxyPort + 2
            || (config.mixedPort.None? && Tproxy(config).value == config.proxyPort + 1)
  {
    hide Derived, Errors;
    ValidExactly(config, strict);
    KernelAndFirewallAgree(config, strict);
  }

  /** A valid configuration with a TUN port for which no kernel section is generated. */
  lemma ValidTunConfigWithoutSection(config: Config, strict: bool)
    requires Errors(config, strict) == []
    requires config.proxyPort == 65533 && config.dnsPort == 65535 && config.tunPort == Some(7000)
    ensures GeneralSection(config).Err?
  {
    hide Errors;
    DerivedIsLeastFree(config);
  }

  /** The shipped defaults without TUN: the kernel's tproxy listener is outside the guard. */
  lemma DefaultTproxyIsUnguarded(config: Config, strict: bool)
    requires Errors(config, strict) == [] && config.proxyPort == 7890 && config.dnsPort == 7892
    requires config.tunPort.None? && !config.tunEnabled
    ensures Tproxy(config).value !in GuardedPorts(ToFirewallConfig(config).value)
  {
    hide Errors, GuardedPorts;
    GuardCoversTproxyExactly(config, strict);
    DerivedIsLeastFree(config);
  }
}
