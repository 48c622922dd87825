/** The rule-mode router (engine/src/app.rs, engine/src/rule.rs): a resumable walk in which
    matching `sniff` and `resolve` rules rewrite the match context, and the configuration checks
    (engine/src/config.rs) that make every route name something that exists. */
module Routing {
  import opened Common
  import opened Addresses

  // ---------------------------------------------------------------- data

  datatype Rule = Rule(matcher: nat, ruleSet: Option<string>, outbound: string)
  datatype RuleAction = Sniff(sniffer: seq<string>) | Resolve | HijackDns
  datatype RuleTable = RuleTable(rules: seq<Rule>, actions: map<nat, RuleAction>)

  /** The part of the match context that the walk can rewrite. */
  datatype Context = Context(target: NetAddr, resolved: Option<seq<Host>>)

  datatype SniffResult = Unknown | Found(domain: string)

  /** What the client socket does at one read of a sniff; running out of arrivals is the timeout. */
  datatype Arrival = Arrived(n: nat) | ReadFails

  /** The surroundings of one walk. The resolver and the socket may answer differently at every
      point of the walk, so both take the index of the rule being served. */
  datatype Env = Env(
    evaluate: (Rule, Context) -> bool,
    hasDns: bool,
    needsIp: bool,
    resolve: (nat, Bytes) -> Option<seq<Host>>,
    unfake: NetAddr -> NetAddr,
    arrivals: nat -> seq<Arrival>,
    sniff: (seq<byte>, seq<string>, nat) -> SniffResult,
    applySniffed: (NetAddr, SniffResult, seq<string>) -> Option<NetAddr>)

  // ---------------------------------------------------------------- streams and sniffing

  /** The client stream: bytes that will still arrive, behind any number of replay buffers. */
  datatype Stream = Live(coming: seq<byte>) | Prepend(pending: seq<byte>, inner: Stream)

  /** Everything a reader of the stream will ever see. */
  function Content(s: Stream): seq<byte> {
    match s
    case Live(coming) => coming
    case Prepend(pending, inner) => pending + Content(inner)
  }

  /** One read of at most `limit` bytes; replayed bytes come before live ones. */
  function Read(s: Stream, n: nat, limit: nat): (r: (seq<byte>, Stream))
    ensures r.0 + Content(r.1) == Content(s)
  {
    match s
    case Live(coming) =>
      var k := Min(Min(n, limit), |coming|);
      (coming[..k], Live(coming[k..]))
    case Prepend(pending, inner) =>
      if pending != [] then
        var k := Min(|pending|, limit);
        (pending[..k], Prepend(pending[k..], inner))
      else
        var (bytes, rest) := Read(inner, n, limit);
        (bytes, Prepend(pending, rest))
  }

  const MAX_SNIFF: nat := 4096

  datatype Sniffed = Sniffed(result: SniffResult, peeked: seq<byte>, rest: Stream)

  /** Reading until something is recognised, the stream ends or fails, the cap or the deadline. */
  function SniffFrom(
      env: Env, s: Stream, buf: seq<byte>, arrivals: seq<Arrival>, sniffer: seq<string>, port: nat): Sniffed
    decreases |arrivals|
  {
    if arrivals == [] || arrivals[0].ReadFails? then Sniffed(Unknown, buf, s)
    else
      var (bytes, rest) := Read(s, arrivals[0].n, 1024);
      var buf' := buf + bytes;
      if bytes == [] then Sniffed(Unknown, buf, rest)
      else if env.sniff(buf', sniffer, port).Found? then Sniffed(env.sniff(buf', sniffer, port), buf', rest)
      else if |buf'| >= MAX_SNIFF then Sniffed(Unknown, buf', rest)
      else SniffFrom(env, rest, buf', arrivals[1..], sniffer, port)
  }

  lemma {:induction false} SniffLosesNothing(
      env: Env, s: Stream, buf: seq<byte>, arrivals: seq<Arrival>, sniffer: seq<string>, port: nat)
    ensures var r := SniffFrom(env, s, buf, arrivals, sniffer, port);
            r.peeked + Content(r.rest) == buf + Content(s)
    decreases |arrivals|
  {
    if arrivals != [] && arrivals[0].Arrived? {
      var (bytes, rest) := Read(s, arrivals[0].n, 1024);
      assert buf + Content(s) == (buf + bytes) + Content(rest);
      SniffLosesNothing(env, rest, buf + bytes, arrivals[1..], sniffer, port);
    }
  }

  /** `sniff_client`. */
  method SniffClient(env: Env, s: Stream, arrivals: seq<Arrival>, sniffer: seq<string>, port: nat)
    returns (found: SniffResult, buf: seq<byte>, rest: Stream)
    ensures Sniffed(found, buf, rest) == SniffFrom(env, s, [], arrivals, sniffer, port)
    ensures buf + Content(rest) == Content(s)
  {
    found, buf, rest := Unknown, [], s;
    var i := 0;
    SniffLosesNothing(env, s, [], arrivals, sniffer, port);
    assert [] + Content(s) == Content(s);
    assert arrivals[0..] == arrivals;
    while i < |arrivals|
      invariant i <= |arrivals| && found == Unknown
      invariant SniffFrom(env, rest, buf, arrivals[i..], sniffer, port) ==
                SniffFrom(env, s, [], arrivals, sniffer, port)
    {
      assert arrivals[i..][0] == arrivals[i] && arrivals[i..][1..] == arrivals[i + 1..];
      if arrivals[i].ReadFails? { return; }
      var (bytes, left) := Read(rest, arrivals[i].n, 1024);
      rest := left;
      if bytes == [] { return; }
      buf := buf + bytes;
      found := env.sniff(buf, sniffer, port);
      if found.Found? { return; }
      if |buf| >= MAX_SNIFF { return; }
      i := i + 1;
    }
  }

  /** The reads of these sizes, in order. */
  function Reads(sizes: seq<nat>): seq<Arrival> { seq(|sizes|, i requires 0 <= i < |sizes| => Arrived(sizes[i])) }

  function Sum(sizes: seq<nat>): nat { if sizes == [] then 0 else sizes[0] + Sum(sizes[1..]) }

  lemma SniffOneRead(env: Env, buf: seq<byte>, content: seq<byte>, n: nat, arrivals: seq<Arrival>,
                     sniffer: seq<string>, port: nat)
    requires 0 < n <= 1024 && n <= |content|
    ensures var buf' := buf + content[..n];
            SniffFrom(env, Live(content), buf, [Arrived(n)] + arrivals, sniffer, port) ==
            if env.sniff(buf', sniffer, port).Found? || |buf'| >= 4096
            then Sniffed(env.sniff(buf', sniffer, port), buf', Live(content[n..]))
            else SniffFrom(env, Live(content[n..]), buf', arrivals, sniffer, port)
  {
    assert ([Arrived(n)] + arrivals)[1..] == arrivals;
    assert Read(Live(content), n, 1024) == (content[..n], Live(content[n..]));
  }

  /** A protocol that shows only after several reads is found by the last of them, with exactly the
      bytes read so far peeked, as long as the reads stay below the cap and nothing showed before. */
  lemma {:induction false} SniffFindsLater(
      env: Env, buf: seq<byte>, content: seq<byte>, sizes: seq<nat>, sniffer: seq<string>, port: nat)
    requires sizes != [] && Sum(sizes) <= |content| && (forall i :: 0 <= i < |sizes| ==> 0 < sizes[i] <= 1024)
    requires forall n :: 0 <= n < Sum(sizes) ==> env.sniff(buf + content[..n], sniffer, port).Unknown?
    requires env.sniff(buf + content[..Sum(sizes)], sniffer, port).Found? && |buf| + Sum(sizes) < 4096
    ensures SniffFrom(env, Live(content), buf, Reads(sizes), sniffer, port) ==
            Sniffed(env.sniff(buf + content[..Sum(sizes)], sniffer, port), buf + content[..Sum(sizes)],
                    Live(content[Sum(sizes)..]))
    decreases |sizes|
  {
    hide SniffFrom;
    var n, rest := sizes[0], sizes[1..];
    var buf', content' := buf + content[..n], content[n..];
    assert Reads(sizes) == [Arrived(n)] + Reads(rest);
    SniffOneRead(env, buf, content, n, Reads(rest), sniffer, port);
    if rest == [] {
      assert Sum(rest) == 0;
    } else {
      assert Sum(rest) > 0 by { assert rest[0] == sizes[1] > 0; }
      forall k | 0 <= k <= Sum(rest) ensures buf' + content'[..k] == buf + content[..n + k] {
        assert content[..n + k] == content[..n] + content'[..k];
      }
      assert content'[Sum(rest)..] == content[Sum(sizes)..];
      forall k | 0 <= k < Sum(rest) ensures env.sniff(buf' + content'[..k], sniffer, port).Unknown? {
        assert buf' + content'[..k] == buf + content[..n + k];
      }
      assert buf + content[..n + Sum(rest)] == buf' + content'[..Sum(rest)];
      SniffFindsLater(env, buf', content', rest, sniffer, port);
    }
  }

  // ---------------------------------------------------------------- the walk, rule by rule

  function PreResolve(env: Env, at: nat, target: NetAddr): Option<seq<Host>> {
    if env.hasDns && target.host.Domain? && env.needsIp && target.host.name != []
    then env.resolve(at, target.host.name) else None
  }

  datatype Route = Routed(index: nat) | Hijacked(index: nat) | Unmatched

  datatype Walked = Walked(route: Route, context: Context, slot: Option<Stream>)

  /** The context and the client slot after a matching `sniff` rule at index `i`. */
  function AfterSniff(
      env: Env, i: nat, sniffer: seq<string>, c: Context, slot: Option<Stream>): (Context, Option<Stream>)
  {
    if slot.None? then (c, slot)
    else
      var r := SniffFrom(env, slot.value, [], env.arrivals(i), sniffer, c.target.port);
      var stream := if r.peeked == [] then r.rest else Prepend(r.peeked, r.rest);
      var t := env.applySniffed(c.target, r.result, sniffer);
      (if t.Some? then Context(t.value, PreResolve(env, i + 1, t.value)) else c, Some(stream))
  }

  function AfterResolve(env: Env, i: nat, c: Context): Context {
    if env.hasDns && c.target.host.Domain? && c.target.host.name != []
    then c.(resolved := env.resolve(i + 1, c.target.host.name)) else c
  }

  /** The specification: look at the rules one after the other; a match ends the walk unless it
      is a `sniff` or `resolve`, which changes the context the later rules are matched against. */
  function Walk(env: Env, table: RuleTable, i: nat, c: Context, slot: Option<Stream>): Walked
    decreases |table.rules| - i
  {
    if i >= |table.rules| then Walked(Unmatched, c, slot)
    else if !env.evaluate(table.rules[i], c) then Walk(env, table, i + 1, c, slot)
    else if i !in table.actions then Walked(Routed(i), c, slot)
    else
      match table.actions[i]
      case Sniff(sniffer) =>
        var (c', slot') := AfterSniff(env, i, sniffer, c, slot);
        Walk(env, table, i + 1, c', slot')
      case Resolve => Walk(env, table, i + 1, AfterResolve(env, i, c), slot)
      case HijackDns => Walked(Hijacked(i), c, slot)
  }

  function SlotContent(slot: Option<Stream>): Option<seq<byte>> {
    if slot.Some? then Some(Content(slot.value)) else None
  }

  lemma SniffReplays(env: Env, i: nat, sniffer: seq<string>, c: Context, slot: Option<Stream>)
    ensures SlotContent(AfterSniff(env, i, sniffer, c, slot).1) == SlotContent(slot)
  {
    if slot.Some? {
      SniffLosesNothing(env, slot.value, [], env.arrivals(i), sniffer, c.target.port);
      assert [] + Content(slot.value) == Content(slot.value);
      var r := SniffFrom(env, slot.value, [], env.arrivals(i), sniffer, c.target.port);
      assert r.peeked == [] ==> r.peeked + Content(r.rest) == Content(r.rest);
    }
  }

  /** However many rules sniff, the client stream comes back with the bytes it had. */
  lemma {:induction false} WalkKeepsClientBytes(env: Env, table: RuleTable, i: nat, c: Context, slot: Option<Stream>)
    ensures SlotContent(Walk(env, table, i, c, slot).slot) == SlotContent(slot)
    decreases |table.rules| - i
  {
    if i < |table.rules| {
      if !env.evaluate(table.rules[i], c) {
        WalkKeepsClientBytes(env, table, i + 1, c, slot);
      } else if i in table.actions {
        match table.actions[i]
        case Sniff(sniffer) =>
          SniffReplays(env, i, sniffer, c, slot);
          var (c', slot') := AfterSniff(env, i, sniffer, c, slot);
          WalkKeepsClientBytes(env, table, i + 1, c', slot');
        case Resolve => WalkKeepsClientBytes(env, table, i + 1, AfterResolve(env, i, c), slot);
        case HijackDns =>
      }
    }
  }

  // ---------------------------------------------------------------- match_from and route_rules

  /** `match_from`: the first matching rule at or after `start`. */
  method MatchFrom(env: Env, table: RuleTable, start: nat, c: Context) returns (index: nat)
    requires start <= |table.rules|
    ensures start <= index <= |table.rules|
    ensures forall k :: start <= k < index ==> !env.evaluate(table.rules[k], c)
    ensures index < |table.rules| ==> env.evaluate(table.rules[index], c)
  {
    index := start;
    while index < |table.rules|
      invariant start <= index <= |table.rules|
      invariant forall k :: start <= k < index ==> !env.evaluate(table.rules[k], c)
    {
      if env.evaluate(table.rules[index], c) { return; }
      index := index + 1;
    }
  }

  lemma {:induction false} WalkSkips(
      env: Env, table: RuleTable, start: nat, index: nat, c: Context, slot: Option<Stream>)
    requires start <= index <= |table.rules|
    requires forall k :: start <= k < index ==> !env.evaluate(table.rules[k], c)
    ensures Walk(env, table, start, c, slot) == Walk(env, table, index, c, slot)
    decreases index - start
  {
    if start < index { WalkSkips(env, table, start + 1, index, c, slot); }
  }

  /** `route_rules`: re-entering `match_from` after each non-final action computes the walk, and
      the iteration cap is never what ends it. */
  method RouteRules(env: Env, table: RuleTable, target: NetAddr, client: Option<Stream>)
    returns (route: Route, effective: NetAddr, slot: Option<Stream>, capped: bool)
    ensures var start := Context(env.unfake(target), PreResolve(env, 0, env.unfake(target)));
            var w := Walk(env, table, 0, start, client);
            route == w.route && effective == w.context.target && slot == w.slot
    ensures SlotContent(slot) == SlotContent(client)
    ensures !capped
  {
    hide Walk, AfterSniff, AfterResolve;
    effective := env.unfake(target);
    var resolved := PreResolve(env, 0, effective);
    slot, route, capped := client, Unmatched, false;
    ghost var start := Context(effective, resolved);
    WalkKeepsClientBytes(env, table, 0, start, client);
    var cap := |table.rules| + 1;
    var at, turn := 0, 0;
    while turn < cap
      invariant turn <= at <= |table.rules|
      invariant Walk(env, table, at, Context(effective, resolved), slot) == Walk(env, table, 0, start, client)
      decreases cap - turn
    {
      var c := Context(effective, resolved);
      var index := MatchFrom(env, table, at, c);
      WalkSkips(env, table, at, index, c, slot);
      WalkHere(env, table, index, c, slot);
      if index == |table.rules| { return; }
      if index !in table.actions { route := Routed(index); return; }
      match table.actions[index] {
      case Sniff(sniffer) =>
        if slot.Some? {
          var found, peeked, rest := SniffClient(env, slot.value, env.arrivals(index), sniffer, effective.port);
          SniffStep(env, index, sniffer, c, slot, Sniffed(found, peeked, rest));
          slot := Some(if peeked == [] then rest else Prepend(peeked, rest));
          var t := env.applySniffed(effective, found, sniffer);
          if t.Some? {
            effective := t.value;
            resolved := PreResolve(env, index + 1, effective);
          }
        }
        at := index + 1;
      case Resolve =>
        if env.hasDns && effective.host.Domain? && effective.host.name != [] {
          resolved := env.resolve(index + 1, effective.host.name);
        }
        ResolveStep(env, index, c);
        at := index + 1;
      case HijackDns =>
        route := Hijacked(index);
        return;
      }
      turn := turn + 1;
    }
    capped := true;
  }

  lemma WalkHere(env: Env, table: RuleTable, i: nat, c: Context, slot: Option<Stream>)
    requires i <= |table.rules| && (i < |table.rules| ==> env.evaluate(table.rules[i], c))
    ensures Walk(env, table, i, c, slot) ==
            if i == |table.rules| then Walked(Unmatched, c, slot)
            else if i !in table.actions then Walked(Routed(i), c, slot)
            else if table.actions[i].HijackDns? then Walked(Hijacked(i), c, slot)
            else if table.actions[i].Resolve? then Walk(env, table, i + 1, AfterResolve(env, i, c), slot)
            else if slot.None? then Walk(env, table, i + 1, c, slot)
            else Walk(env, table, i + 1, AfterSniff(env, i, table.actions[i].sniffer, c, slot).0,
                      AfterSniff(env, i, table.actions[i].sniffer, c, slot).1)
  {
  }

  lemma SniffStep(env: Env, i: nat, sniffer: seq<string>, c: Context, slot: Option<Stream>, r: Sniffed)
    requires slot.Some? && r == SniffFrom(env, slot.value, [], env.arrivals(i), sniffer, c.target.port)
    ensures var t := env.applySniffed(c.target, r.result, sniffer);
            AfterSniff(env, i, sniffer, c, slot) ==
            (if t.Some? then Context(t.value, PreResolve(env, i + 1, t.value)) else c,
             Some(if r.peeked == [] then r.rest else Prepend(r.peeked, r.rest)))
  {
  }

  lemma ResolveStep(env: Env, i: nat, c: Context)
    ensures AfterResolve(env, i, c) ==
            if env.hasDns && c.target.host.Domain? && c.target.host.name != []
            then Context(c.target, env.resolve(i + 1, c.target.host.name)) else c
  {
  }

  // ---------------------------------------------------------------- configured names

  datatype Group = Group(name: string, members: seq<string>)

  /** `rules` is None when some rule line does not parse. */
  datatype EngineConfig = EngineConfig(
    outbounds: seq<string>, groups: seq<Group>, providers: seq<string>,
    rules: Option<seq<Rule>>, actions: map<nat, RuleAction>)

  const BUILTINS: seq<string> := ["DIRECT", "REJECT", "REJECT-DROP", "PASS", "COMPATIBLE"]

  predicate IsGroup(cfg: EngineConfig, name: string) {
    exists i :: 0 <= i < |cfg.groups| && cfg.groups[i].name == name
  }

  /** The name of a configured proxy or group. */
  predicate Configured(cfg: EngineConfig, name: string) { name in cfg.outbounds || IsGroup(cfg, name) }

  /** Those of the first `n` built-ins that the configuration lacks, in order. */
  function Missing(cfg: EngineConfig, n: nat): seq<string>
    requires n <= |BUILTINS|
  {
    if n == 0 then []
    else Missing(cfg, n - 1) + (if Configured(cfg, BUILTINS[n - 1]) then [] else [BUILTINS[n - 1]])
  }

  /** `with_builtin_outbounds`: the missing built-ins are appended, nothing else changes. */
  method WithBuiltinOutbounds(cfg: EngineConfig) returns (out: EngineConfig)
    ensures out == cfg.(outbounds := cfg.outbounds + Missing(cfg, |BUILTINS|))
    ensures forall name :: Configured(out, name) <==> Configured(cfg, name) || name in BUILTINS
    ensures Distinct(cfg.outbounds) ==> Distinct(out.outbounds)
    ensures (forall name :: name in BUILTINS ==> Configured(cfg, name)) ==> out == cfg
  {
    hide Configured, Distinct;
    out := cfg;
    assert cfg.outbounds + [] == cfg.outbounds;
    for i := 0 to |BUILTINS|
      invariant out == cfg.(outbounds := cfg.outbounds + Missing(cfg, i))
    {
      ghost var more := Missing(cfg, i);
      NotYetAppended(cfg, i);
      if !Configured(out, BUILTINS[i]) {
        out := out.(outbounds := out.outbounds + [BUILTINS[i]]);
        assert cfg.outbounds + more + [BUILTINS[i]] == cfg.outbounds + (more + [BUILTINS[i]]);
      } else {
        assert more + [] == more;
      }
    }
    MissingCompletes(cfg);
  }

  lemma {:induction false} MissingAre(cfg: EngineConfig, n: nat, name: string)
    requires n <= |BUILTINS|
    ensures name in Missing(cfg, n) <==> name in BUILTINS[..n] && !Configured(cfg, name)
  {
    hide Configured;
    if n > 0 {
      MissingAre(cfg, n - 1, name);
      assert BUILTINS[..n] == BUILTINS[..n - 1] + [BUILTINS[n - 1]];
    }
  }

  lemma Appended(cfg: EngineConfig, more: seq<string>, name: string)
    ensures Configured(cfg.(outbounds := cfg.outbounds + more), name) <==> Configured(cfg, name) || name in more
  {
  }

  lemma NotYetAppended(cfg: EngineConfig, i: nat)
    requires i < |BUILTINS|
    ensures Configured(cfg.(outbounds := cfg.outbounds + Missing(cfg, i)), BUILTINS[i]) <==>
            Configured(cfg, BUILTINS[i])
  {
    hide Configured;
    BuiltinsDiffer();
    MissingAre(cfg, i, BUILTINS[i]);
    Appended(cfg, Missing(cfg, i), BUILTINS[i]);
  }

  lemma {:induction false} MissingDiffer(cfg: EngineConfig, n: nat)
    requires n <= |BUILTINS|
    ensures Distinct(Missing(cfg, n))
  {
    hide Configured;
    if n > 0 {
      MissingDiffer(cfg, n - 1);
      MissingAre(cfg, n - 1, BUILTINS[n - 1]);
      BuiltinsDiffer();
    }
  }

  lemma MissingCompletes(cfg: EngineConfig)
    ensures var out := cfg.(outbounds := cfg.outbounds + Missing(cfg, |BUILTINS|));
            && (forall name :: Configured(out, name) <==> Configured(cfg, name) || name in BUILTINS)
            && (Distinct(cfg.outbounds) ==> Distinct(out.outbounds))
            && ((forall name :: name in BUILTINS ==> Configured(cfg, name)) ==> out == cfg)
  {
    hide Missing;
    var more := Missing(cfg, |BUILTINS|);
    assert BUILTINS[..|BUILTINS|] == BUILTINS;
    forall name ensures name in more <==> name in BUILTINS && !Configured(cfg, name) {
      MissingAre(cfg, |BUILTINS|, name);
    }
    var out := cfg.(outbounds := cfg.outbounds + more);
    forall name ensures Configured(out, name) <==> Configured(cfg, name) || name in more {
      Appended(cfg, more, name);
    }
    MissingDiffer(cfg, |BUILTINS|);
    assert forall name :: name in more ==> name !in cfg.outbounds;
    if Distinct(cfg.outbounds) { DistinctConcat(cfg.outbounds, more); }
    assert |more| > 0 ==> more[0] in more;
    assert cfg.outbounds + [] == cfg.outbounds;
  }

  lemma DistinctConcat(a: seq<string>, b: seq<string>)
    requires Distinct(a) && Distinct(b) && forall x :: x in b ==> x !in a
    ensures Distinct(a + b)
  {
    forall i, j | 0 <= i < j < |a + b| ensures (a + b)[i] != (a + b)[j] {
      if i < |a| <= j { assert b[j - |a|] in b && a[i] in a; }
    }
  }

  lemma BuiltinsDiffer()
    ensures Distinct(BUILTINS)
  {
    assert |BUILTINS[0]| == 6 && |BUILTINS[1]| == 6 && |BUILTINS[2]| == 11 && |BUILTINS[3]| == 4 && |BUILTINS[4]| == 10;
    assert BUILTINS[0][0] != BUILTINS[1][0];
  }

  predicate RuleAccepted(cfg: EngineConfig, i: nat, r: Rule) {
    && (r.ruleSet.Some? ==> r.ruleSet.value in cfg.providers)
    && (i in cfg.actions || Configured(cfg, r.outbound))
  }

  predicate Accepted(cfg: EngineConfig) {
    && (cfg.outbounds != [] || cfg.groups != [])
    && cfg.rules.Some?
    && (forall i :: 0 <= i < |cfg.rules.value| ==> RuleAccepted(cfg, i, cfg.rules.value[i]))
    && (forall i, m :: 0 <= i < |cfg.groups| && m in cfg.groups[i].members ==> Configured(cfg, m))
  }

  /** `validate`, without its warnings. */
  method Validate(cfg: EngineConfig) returns (r: Result<()>)
    ensures r.Ok? <==> Accepted(cfg)
  {
    if cfg.outbounds == [] && cfg.groups == [] { return Err; }
    if cfg.rules.None? { return Err; }
    var rules := cfg.rules.value;
    for i := 0 to |rules|
      invariant forall k :: 0 <= k < i ==> RuleAccepted(cfg, k, rules[k])
    {
      if rules[i].ruleSet.Some? && rules[i].ruleSet.value !in cfg.providers { return Err; }
      if i !in cfg.actions && !Configured(cfg, rules[i].outbound) { return Err; }
    }
    for i := 0 to |cfg.groups|
      invariant forall k, m :: 0 <= k < i && m in cfg.groups[k].members ==> Configured(cfg, m)
    {
      var members := cfg.groups[i].members;
      for j := 0 to |members|
        invariant forall k :: 0 <= k < j ==> Configured(cfg, members[k])
      {
        if !Configured(cfg, members[j]) {
          assert members[j] in cfg.groups[i].members;
          return Err;
        }
      }
    }
    return Ok(());
  }

  datatype Mode = Direct | Global | ByRule

  function RouteName(table: RuleTable, route: Route): string
    requires route.Routed? ==> route.index < |table.rules|
  {
    match route
    case Routed(i) => table.rules[i].outbound
    case Hijacked(_) => "dns"
    case Unmatched => "DIRECT"
  }

  lemma {:induction false} WalkEndsAtActionless(env: Env, table: RuleTable, i: nat, c: Context, slot: Option<Stream>)
    ensures var r := Walk(env, table, i, c, slot).route;
            && (r.Routed? ==> r.index < |table.rules| && r.index !in table.actions)
            && (r.Hijacked? ==>
                  r.index < |table.rules| && r.index in table.actions && table.actions[r.index].HijackDns?)
    decreases |table.rules| - i
  {
    if i < |table.rules| {
      if !env.evaluate(table.rules[i], c) {
        WalkEndsAtActionless(env, table, i + 1, c, slot);
      } else if i in table.actions {
        match table.actions[i]
        case Sniff(sniffer) =>
          var (c', slot') := AfterSniff(env, i, sniffer, c, slot);
          WalkEndsAtActionless(env, table, i + 1, c', slot');
        case Resolve => WalkEndsAtActionless(env, table, i + 1, AfterResolve(env, i, c), slot);
        case HijackDns =>
      }
    }
  }

  /** The name `route_with` returns; the registry lists groups and outbounds in config order. */
  function RouteWith(env: Env, cfg: EngineConfig, mode: Mode, c: Context, slot: Option<Stream>): string
    requires cfg.rules.Some?
  {
    match mode
    case Direct => "DIRECT"
    case Global =>
      if cfg.groups != [] then cfg.groups[0].name
      else if cfg.outbounds != [] then cfg.outbounds[0]
      else "DIRECT"
    case ByRule =>
      var table := RuleTable(cfg.rules.value, cfg.actions);
      WalkEndsAtActionless(env, table, 0, c, slot);
      RouteName(table, Walk(env, table, 0, c, slot).route)
  }

  /** A matching sniff rule that recognises the client's first bytes lets every later rule see the
      recognised target, with its addresses looked up anew if any rule needs them, and the client's
      bytes as they were. */
  lemma SniffedTargetDecides(env: Env, table: RuleTable, i: nat, c: Context, content: seq<byte>, sizes: seq<nat>)
    requires i < |table.rules| && env.evaluate(table.rules[i], c) && i in table.actions && table.actions[i].Sniff?
    requires env.arrivals(i) == Reads(sizes) && sizes != [] && Sum(sizes) <= |content| && Sum(sizes) < 4096
    requires forall k :: 0 <= k < |sizes| ==> 0 < sizes[k] <= 1024
    requires forall n :: 0 <= n < Sum(sizes) ==>
               env.sniff([] + content[..n], table.actions[i].sniffer, c.target.port).Unknown?
    requires var found := env.sniff([] + content[..Sum(sizes)], table.actions[i].sniffer, c.target.port);
             found.Found? && env.applySniffed(c.target, found, table.actions[i].sniffer).Some?
    ensures var found := env.sniff([] + content[..Sum(sizes)], table.actions[i].sniffer, c.target.port);
            var target := env.applySniffed(c.target, found, table.actions[i].sniffer).value;
            var lookup := env.hasDns && env.needsIp && target.host.Domain? && target.host.name != [];
            var c' := Context(target, if lookup then env.resolve(i + 1, target.host.name) else None);
            exists slot :: SlotContent(slot) == Some(content) &&
              Walk(env, table, i, c, Some(Live(content))) == Walk(env, table, i + 1, c', slot)
  {
    var sniffer := table.actions[i].sniffer;
    SniffFindsLater(env, [], content, sizes, sniffer, c.target.port);
    SniffReplays(env, i, sniffer, c, Some(Live(content)));
    var (c', slot') := AfterSniff(env, i, sniffer, c, Some(Live(content)));
    assert Walk(env, table, i, c, Some(Live(content))) == Walk(env, table, i + 1, c', slot');
  }

  /** A matching resolve rule lets every later rule see the addresses of the target's name. */
  lemma ResolvedAddressesDecide(env: Env, table: RuleTable, i: nat, c: Context, slot: Option<Stream>)
    requires i < |table.rules| && env.evaluate(table.rules[i], c) && i in table.actions && table.actions[i].Resolve?
    requires env.hasDns && c.target.host.Domain? && c.target.host.name != []
    ensures Walk(env, table, i, c, slot) ==
            Walk(env, table, i + 1, Context(c.target, env.resolve(i + 1, c.target.host.name)), slot)
  {
  }

  /** Direct mode always answers DIRECT; global mode prefers the first group, then the first
      outbound; rule mode without actions answers the target of the first rule that matches, and
      DIRECT when none does. */
  lemma ModesChoose(env: Env, cfg: EngineConfig, c: Context, slot: Option<Stream>, i: nat)
    requires cfg.rules.Some?
    ensures RouteWith(env, cfg, Direct, c, slot) == "DIRECT"
    ensures |cfg.groups| > 0 ==> RouteWith(env, cfg, Global, c, slot) == cfg.groups[0].name
    ensures |cfg.groups| == 0 && |cfg.outbounds| > 0 ==> RouteWith(env, cfg, Global, c, slot) == cfg.outbounds[0]
    ensures |cfg.groups| == 0 && |cfg.outbounds| == 0 ==> RouteWith(env, cfg, Global, c, slot) == "DIRECT"
    ensures var rules := cfg.rules.value;
            cfg.actions == map[] && i <= |rules| && (forall k :: 0 <= k < i ==> !env.evaluate(rules[k], c)) ==>
              && (i == |rules| ==> RouteWith(env, cfg, ByRule, c, slot) == "DIRECT")
              && (i < |rules| && env.evaluate(rules[i], c) ==>
                    RouteWith(env, cfg, ByRule, c, slot) == rules[i].outbound)
  {
    var table := RuleTable(cfg.rules.value, cfg.actions);
    if i <= |table.rules| && forall k :: 0 <= k < i ==> !env.evaluate(table.rules[k], c) {
      WalkSkips(env, table, 0, i, c, slot);
    }
  }

  /** In an accepted configuration with built-ins, a route names something configured unless a
      hijack-dns rule ended the walk and nothing is called "dns". */
  lemma RoutesNameConfigured(env: Env, cfg: EngineConfig, mode: Mode, c: Context, slot: Option<Stream>)
    requires Accepted(cfg) && forall name :: name in BUILTINS ==> Configured(cfg, name)
    ensures Configured(cfg, RouteWith(env, cfg, mode, c, slot)) <==>
            !(mode.ByRule? && Walk(env, RuleTable(cfg.rules.value, cfg.actions), 0, c, slot).route.Hijacked?
              && !Configured(cfg, "dns"))
  {
    var table := RuleTable(cfg.rules.value, cfg.actions);
    WalkEndsAtActionless(env, table, 0, c, slot);
    assert "DIRECT" == BUILTINS[0];
    var route := Walk(env, table, 0, c, slot).route;
    if mode.ByRule? && route.Routed? {
      assert RuleAccepted(cfg, route.index, cfg.rules.value[route.index]);
    }
    if mode.Global? && cfg.groups != [] {
      assert IsGroup(cfg, cfg.groups[0].name);
    }
  }

  /** A rule of the configuration carries the hijack-dns action. */
  predicate HasHijack(cfg: EngineConfig)
    requires cfg.rules.Some?
  {
    exists i :: 0 <= i < |cfg.rules.value| && HijacksAt(cfg, i)
  }

  predicate HijacksAt(cfg: EngineConfig, i: nat)
    requires cfg.rules.Some?
  {
    i < |cfg.rules.value| && i in cfg.actions && cfg.actions[i].HijackDns?
  }

  /** Without a rule that hijacks DNS, or with something called "dns", every route is configured. */
  lemma NoHijackMeansConfigured(env: Env, cfg: EngineConfig, mode: Mode, c: Context, slot: Option<Stream>)
    requires Accepted(cfg) && forall name :: name in BUILTINS ==> Configured(cfg, name)
    requires !HasHijack(cfg) || Configured(cfg, "dns")
    ensures Configured(cfg, RouteWith(env, cfg, mode, c, slot))
  {
    var table := RuleTable(cfg.rules.value, cfg.actions);
    WalkEndsAtActionless(env, table, 0, c, slot);
    var route := Walk(env, table, 0, c, slot).route;
    assert route.Hijacked? ==> HijacksAt(cfg, route.index);
    RoutesNameConfigured(env, cfg, mode, c, slot);
  }
}
