/** The engine's configuration loaders (engine/src/config_singbox.rs, engine/src/config_mihomo.rs,
    core/src/engine.rs): which names exist once a configuration is loaded, and how the actions of
    sing-box route rules travel to the rule table. */
module Loader {
  import opened Common
  import opened Text
  import opened Routing

  // ---------------------------------------------------------------- a sing-box configuration

  /** A dialling type, a group, or anything that makes the loader give up: an unsupported type, a
      detour, a missing field. */
  datatype RawKind = Dialer | Selector(members: seq<string>) | Refused

  datatype RawOutbound = RawOutbound(tag: Option<string>, kind: RawKind)

  /** A converted rule line, by what it parses to. */
  type Line = Option<Rule>

  datatype Directive = RouteIt | Act(action: RuleAction) | Dropped | UnknownAction

  datatype RawRule = RawRule(directive: Directive, lines: Result<seq<Line>>)

  datatype RawRoute = RawRoute(rules: seq<RawRule>, final: Option<string>)

  /** `restLoads` is whether everything that is not routing loads. */
  datatype RawConfig = RawConfig(outbounds: seq<RawOutbound>, route: Option<RawRoute>, restLoads: bool)

  // ---------------------------------------------------------------- outbounds and groups

  const TAGS: seq<string> := ["direct", "block", "dns"]

  predicate Declares(raw: seq<RawOutbound>, tag: string) {
    exists i :: 0 <= i < |raw| && raw[i].tag == Some(tag)
  }

  /** An entry for a built-in that the configuration does not declare. */
  predicate IsBuiltin(raw: seq<RawOutbound>, entry: RawOutbound) {
    entry.kind == Dialer && entry.tag.Some? && entry.tag.value in TAGS && !Declares(raw, entry.tag.value)
  }

  /** Entries for those of the first `n` built-ins that are not declared, in order. */
  function MissingTags(raw: seq<RawOutbound>, n: nat): seq<RawOutbound>
    requires n <= |TAGS|
  {
    if n == 0 then []
    else MissingTags(raw, n - 1) + (if Declares(raw, TAGS[n - 1]) then [] else [RawOutbound(Some(TAGS[n - 1]), Dialer)])
  }

  /** sing-box always provides its three built-ins: exactly the undeclared ones are appended. */
  method AddBuiltins(raw: seq<RawOutbound>) returns (all: seq<RawOutbound>)
    ensures all == raw + MissingTags(raw, |TAGS|)
    ensures forall t :: Declares(all, t) <==> Declares(raw, t) || t in TAGS
    ensures forall i :: |raw| <= i < |all| ==> IsBuiltin(raw, all[i])
  {
    all := raw;
    assert raw + [] == raw;
    for k := 0 to |TAGS|
      invariant all == raw + MissingTags(raw, k)
    {
      ghost var more := MissingTags(raw, k);
      if !Declares(raw, TAGS[k]) {
        all := all + [RawOutbound(Some(TAGS[k]), Dialer)];
        assert all == raw + (more + [RawOutbound(Some(TAGS[k]), Dialer)]);
      } else {
        assert more + [] == more;
      }
    }
    TagsAreDeclared(raw, |TAGS|);
  }

  lemma {:induction false} TagsAreDeclared(raw: seq<RawOutbound>, n: nat)
    requires n <= |TAGS|
    ensures var all := raw + MissingTags(raw, n);
            && (forall i :: |raw| <= i < |all| ==> IsBuiltin(raw, all[i]))
            && (forall t :: Declares(all, t) <==> Declares(raw, t) || t in TAGS[..n])
  {
    var all := raw + MissingTags(raw, n);
    StillDeclared(raw, all);
    if n > 0 {
      TagsAreDeclared(raw, n - 1);
      var before, t := raw + MissingTags(raw, n - 1), TAGS[n - 1];
      assert TAGS[..n] == TAGS[..n - 1] + [t] && t in TAGS;
      StillDeclared(before, all);
      if !Declares(raw, t) {
        assert all == before + [RawOutbound(Some(t), Dialer)];
        assert all[|all| - 1].tag == Some(t);
      }
    } else {
      assert all == raw;
    }
  }

  lemma StillDeclared(before: seq<RawOutbound>, all: seq<RawOutbound>)
    requires before <= all
    ensures forall t :: Declares(before, t) ==> Declares(all, t)
  {
    forall t | Declares(before, t) ensures Declares(all, t) {
      var i :| 0 <= i < |before| && before[i].tag == Some(t);
      assert all[i] == before[i];
    }
  }

  /** The tag, or a name made from the position. */
  function NameOf(all: seq<RawOutbound>, i: nat): string
    requires i < |all|
  {
    if all[i].tag.Some? then all[i].tag.value else "out-" + Decimal(i)
  }

  predicate NoneRefused(raw: seq<RawOutbound>) { forall i :: 0 <= i < |raw| ==> !raw[i].kind.Refused? }

  /** What becomes of entry `i`. */
  predicate Converted(all: seq<RawOutbound>, i: nat, outbounds: seq<string>, groups: seq<Group>)
    requires i < |all|
  {
    match all[i].kind
    case Dialer => NameOf(all, i) in outbounds
    case Selector(members) => Group(NameOf(all, i), members) in groups
    case Refused => false
  }

  /** The names of the dialling entries among the first `n`, in order. */
  function Dialers(all: seq<RawOutbound>, n: nat): seq<string>
    requires n <= |all|
  {
    if n == 0 then [] else Dialers(all, n - 1) + (if all[n - 1].kind.Dialer? then [NameOf(all, n - 1)] else [])
  }

  /** The groups among the first `n` entries, in order. */
  function Groups(all: seq<RawOutbound>, n: nat): seq<Group>
    requires n <= |all|
  {
    if n == 0 then []
    else
      var kind := all[n - 1].kind;
      Groups(all, n - 1) + (if kind.Selector? then [Group(NameOf(all, n - 1), kind.members)] else [])
  }

  /** Every entry becomes an outbound or a group of its name, or loading fails. */
  method ConvertOutbounds(all: seq<RawOutbound>) returns (r: Result<(seq<string>, seq<Group>)>)
    ensures r.Ok? <==> NoneRefused(all)
    ensures r.Ok? ==> r.value == (Dialers(all, |all|), Groups(all, |all|))
    ensures r.Ok? ==> forall i :: 0 <= i < |all| ==> Converted(all, i, r.value.0, r.value.1)
  {
    var outbounds, groups := [], [];
    for i := 0 to |all|
      invariant NoneRefused(all[..i]) && outbounds == Dialers(all, i) && groups == Groups(all, i)
      invariant forall k :: 0 <= k < i ==> Converted(all, k, outbounds, groups)
    {
      ghost var before := (outbounds, groups);
      match all[i].kind {
      case Dialer => outbounds := outbounds + [NameOf(all, i)];
      case Selector(members) => groups := groups + [Group(NameOf(all, i), members)];
      case Refused => return Err;
      }
      assert all[..i + 1] == all[..i] + [all[i]];
      forall k | 0 <= k < i ensures Converted(all, k, outbounds, groups) {
        StillConverted(all, k, before.0, before.1, outbounds, groups);
      }
    }
    assert all[..|all|] == all;
    return Ok((outbounds, groups));
  }

  lemma StillConverted(all: seq<RawOutbound>, i: nat, outbounds: seq<string>, groups: seq<Group>,
                       outbounds': seq<string>, groups': seq<Group>)
    requires i < |all| && Converted(all, i, outbounds, groups) && outbounds <= outbounds' && groups <= groups'
    ensures Converted(all, i, outbounds', groups')
  {
    assert forall k :: 0 <= k < |outbounds| ==> outbounds[k] == outbounds'[k];
    assert forall k :: 0 <= k < |groups| ==> groups[k] == groups'[k];
  }

  // ---------------------------------------------------------------- rules and their actions

  predicate Converts(r: RawRule) { !r.directive.UnknownAction? && (r.directive.Dropped? || r.lines.Ok?) }

  predicate AllConvert(rules: seq<RawRule>) { forall i :: 0 <= i < |rules| ==> Converts(rules[i]) }

  type Labelled = (Line, Option<RuleAction>)

  /** The lines of one route rule, each with the rule's own action. */
  function Labels(r: RawRule): seq<Labelled>
    requires Converts(r)
  {
    if r.directive.Dropped? then []
    else
      var action := if r.directive.Act? then Some(r.directive.action) else None;
      seq(|r.lines.value|, i requires 0 <= i < |r.lines.value| => (r.lines.value[i], action))
  }

  function AllLabels(rules: seq<RawRule>): seq<Labelled>
    requires AllConvert(rules)
  {
    if rules == [] then [] else Labels(rules[0]) + AllLabels(rules[1..])
  }

  /** The side table keyed by line index says of every line what its label says. */
  predicate Carries(lines: seq<Line>, actions: map<nat, RuleAction>, labels: seq<Labelled>) {
    && |lines| == |labels| && (forall i :: i in actions ==> i < |lines|)
    && forall i :: 0 <= i < |labels| ==>
         labels[i] == (lines[i], if i in actions then Some(actions[i]) else None)
  }

  /** The conversion loop: dropped rules vanish, every line of an action rule gets the action. */
  method ConvertRules(rules: seq<RawRule>) returns (r: Result<(seq<Line>, map<nat, RuleAction>)>)
    ensures r.Ok? <==> AllConvert(rules)
    ensures r.Ok? ==> Carries(r.value.0, r.value.1, AllLabels(rules))
  {
    hide Labels, Carries;
    var lines: seq<Line>, actions: map<nat, RuleAction> := [], map[];
    assert rules[..0] == [];
    NoLabels();
    for k := 0 to |rules|
      invariant AllConvert(rules[..k]) && Carries(lines, actions, AllLabels(rules[..k]))
    {
      var rule := rules[k];
      assert rules[..k + 1] == rules[..k] + [rule];
      if !Converts(rule) { return Err; }
      LabelsSnoc(rules[..k], rule);
      LabelsOf(rule);
      if !rule.directive.Dropped? {
        ghost var before, labels := actions, AllLabels(rules[..k]);
        if rule.directive.Act? {
          actions := Attach(actions, |lines|, |lines| + |rule.lines.value|, rule.directive.action);
        }
        CarriesMore(lines, before, labels, rule, actions);
        lines := lines + rule.lines.value;
      } else {
        assert AllLabels(rules[..k]) + [] == AllLabels(rules[..k]);
      }
    }
    assert rules[..|rules|] == rules;
    return Ok((lines, actions));
  }

  /** Every line index from `base` on is given the action. */
  method Attach(actions: map<nat, RuleAction>, base: nat, end: nat, action: RuleAction)
    returns (more: map<nat, RuleAction>)
    requires base <= end
    ensures forall j :: j in more <==> j in actions || base <= j < end
    ensures forall j :: j in more ==>
              if base <= j < end then more[j] == action else j in actions && more[j] == actions[j]
  {
    more := actions;
    for i := base to end
      invariant forall j :: j in more <==> j in actions || base <= j < i
      invariant forall j :: j in more ==>
                  if base <= j < i then more[j] == action else j in actions && more[j] == actions[j]
    {
      more := more[i := action];
    }
  }

  lemma LabelsOf(r: RawRule)
    requires Converts(r)
    ensures r.directive.Dropped? ==> Labels(r) == []
    ensures !r.directive.Dropped? ==>
              && |Labels(r)| == |r.lines.value|
              && forall i :: 0 <= i < |Labels(r)| ==>
                   Labels(r)[i] == (r.lines.value[i], if r.directive.Act? then Some(r.directive.action) else None)
  {
  }

  lemma CarriesMore(lines: seq<Line>, actions: map<nat, RuleAction>, labels: seq<Labelled>, rule: RawRule,
                    more: map<nat, RuleAction>)
    requires Carries(lines, actions, labels) && Converts(rule) && !rule.directive.Dropped?
    requires var base, end := |lines|, |lines| + |rule.lines.value|;
             if rule.directive.Act? then
               && (forall j :: j in more <==> j in actions || base <= j < end)
               && forall j :: j in more ==>
                    if base <= j < end then more[j] == rule.directive.action
                    else j in actions && more[j] == actions[j]
             else more == actions
    ensures Carries(lines + rule.lines.value, more, labels + Labels(rule))
  {
    hide Labels;
    LabelsOf(rule);
  }

  lemma {:induction false} LabelsSnoc(rules: seq<RawRule>, rule: RawRule)
    requires AllConvert(rules) && Converts(rule)
    ensures AllConvert(rules + [rule]) && AllLabels(rules + [rule]) == AllLabels(rules) + Labels(rule)
  {
    hide Labels, Converts;
    var all := rules + [rule];
    assert AllConvert(all);
    if rules == [] {
      assert all == [rule] && all[1..] == [];
      assert AllLabels(all[1..]) == [] && Labels(rule) + [] == Labels(rule);
    } else {
      var rest := rules[1..];
      assert all[0] == rules[0] && all[1..] == rest + [rule];
      LabelsSnoc(rest, rule);
      assert Labels(rules[0]) + (AllLabels(rest) + Labels(rule)) == (Labels(rules[0]) + AllLabels(rest)) + Labels(rule);
    }
  }

  /** `parse_rules`: all lines, or none when one is malformed. */
  function Parsed(lines: seq<Line>): Option<seq<Rule>> {
    if exists i :: 0 <= i < |lines| && lines[i].None? then None
    else Some(seq(|lines|, i requires 0 <= i < |lines| => lines[i].value))
  }

  // ---------------------------------------------------------------- the sing-box loader

  /** The target of the closing MATCH line. */
  function FinalTag(raw: RawConfig, outbounds: seq<string>): string {
    if raw.route.None? then "direct"
    else if raw.route.value.final.Some? then raw.route.value.final.value
    else if outbounds != [] then outbounds[0]
    else "direct"
  }

  predicate RulesConvert(raw: RawConfig) { raw.route.Some? ==> AllConvert(raw.route.value.rules) }

  /** The source's rules in order, each with its action, and the closing MATCH without one. */
  function SourceLabels(raw: RawConfig, outbounds: seq<string>, matchLine: string -> Line): seq<Labelled>
    requires RulesConvert(raw)
  {
    (if raw.route.Some? then AllLabels(raw.route.value.rules) else []) + [(matchLine(FinalTag(raw, outbounds)), None)]
  }

  /** The loaded configuration compiles to these labelled lines. */
  ghost predicate Compiles(cfg: EngineConfig, labels: seq<Labelled>) {
    exists lines :: cfg.rules == Parsed(lines) && Carries(lines, cfg.actions, labels)
  }

  predicate SingBoxLoads(raw: RawConfig) {
    raw.outbounds != [] && raw.restLoads && NoneRefused(raw.outbounds) && RulesConvert(raw)
  }

  /** What a loaded sing-box configuration is made of, before the engine's own built-ins. */
  ghost predicate FromSingBox(raw: RawConfig, matchLine: string -> Line, cfg: EngineConfig)
    requires RulesConvert(raw)
  {
    var all := raw.outbounds + MissingTags(raw.outbounds, |TAGS|);
    && cfg.outbounds == Dialers(all, |all|) && cfg.groups == Groups(raw.outbounds, |raw.outbounds|)
    && cfg.providers == [] && Compiles(cfg, SourceLabels(raw, cfg.outbounds, matchLine))
  }

  method LoadSingBox(raw: RawConfig, matchLine: string -> Line) returns (r: Result<EngineConfig>)
    ensures r.Ok? <==> SingBoxLoads(raw)
    ensures r.Ok? ==> FromSingBox(raw, matchLine, r.value)
  {
    hide Carries, Parsed, AllLabels;
    if raw.outbounds == [] || !raw.restLoads { return Err; }
    var all := AddBuiltins(raw.outbounds);
    AppendedLoad(raw.outbounds, all);
    var converted := ConvertOutbounds(all);
    if converted.Err? { return Err; }
    var (outbounds, groups) := converted.value;
    var lines: seq<Line>, actions: map<nat, RuleAction> := [], map[];
    if raw.route.Some? {
      var rules := ConvertRules(raw.route.value.rules);
      if rules.Err? { return Err; }
      lines, actions := rules.value.0, rules.value.1;
    } else {
      NoLabels();
    }
    ghost var labels := if raw.route.Some? then AllLabels(raw.route.value.rules) else [];
    var closing := matchLine(FinalTag(raw, outbounds));
    ClosingLine(lines, actions, labels, closing);
    lines := lines + [closing];
    GroupsOfDeclared(raw.outbounds, all, |all|);
    return Ok(EngineConfig(outbounds, groups, [], Parsed(lines), actions));
  }

  /** Only declared entries are groups. */
  lemma {:induction false} GroupsOfDeclared(raw: seq<RawOutbound>, all: seq<RawOutbound>, n: nat)
    requires raw <= all && |raw| <= n <= |all| && forall i :: |raw| <= i < |all| ==> all[i].kind == Dialer
    ensures Groups(all, n) == Groups(raw, |raw|)
    decreases n
  {
    if n > |raw| { GroupsOfDeclared(raw, all, n - 1); } else { SameGroups(raw, all, n); }
  }

  lemma {:induction false} SameGroups(raw: seq<RawOutbound>, all: seq<RawOutbound>, n: nat)
    requires raw <= all && n <= |raw|
    ensures Groups(all, n) == Groups(raw, n)
  {
    if n > 0 {
      SameGroups(raw, all, n - 1);
      assert all[n - 1] == raw[n - 1];
    }
  }

  /** A name is configured if and only if an entry bears it. */
  lemma NamesAreEntries(all: seq<RawOutbound>, cfg: EngineConfig, name: string)
    requires NoneRefused(all) && cfg.outbounds == Dialers(all, |all|) && cfg.groups == Groups(all, |all|)
    ensures Configured(cfg, name) <==> exists i :: 0 <= i < |all| && NameOf(all, i) == name
  {
    DialersAre(all, |all|, name);
    GroupsAre(all, |all|, name);
  }

  lemma {:induction false} DialersAre(all: seq<RawOutbound>, n: nat, name: string)
    requires n <= |all|
    ensures name in Dialers(all, n) <==> exists i :: 0 <= i < n && all[i].kind.Dialer? && NameOf(all, i) == name
  {
    if n > 0 { DialersAre(all, n - 1, name); }
  }

  ghost predicate GroupNamed(groups: seq<Group>, name: string) {
    exists i :: 0 <= i < |groups| && groups[i].name == name
  }

  lemma {:induction false} GroupsAre(all: seq<RawOutbound>, n: nat, name: string)
    requires n <= |all|
    ensures GroupNamed(Groups(all, n), name) <==>
            exists i :: 0 <= i < n && all[i].kind.Selector? && NameOf(all, i) == name
  {
    if n > 0 {
      GroupsAre(all, n - 1, name);
      var before, groups := Groups(all, n - 1), Groups(all, n);
      assert forall k :: 0 <= k < |before| ==> groups[k] == before[k];
      if all[n - 1].kind.Selector? { assert groups[|groups| - 1].name == NameOf(all, n - 1); }
    }
  }

  lemma AppendedLoad(raw: seq<RawOutbound>, all: seq<RawOutbound>)
    requires raw <= all && forall i :: |raw| <= i < |all| ==> all[i].kind == Dialer
    ensures NoneRefused(all) <==> NoneRefused(raw)
    ensures forall i :: 0 <= i < |raw| ==> NameOf(all, i) == NameOf(raw, i)
  {
    assert forall i :: 0 <= i < |raw| ==> all[i] == raw[i];
  }

  lemma NoLabels()
    ensures Carries([], map[], [])
  {
  }

  lemma ClosingLine(lines: seq<Line>, actions: map<nat, RuleAction>, labels: seq<Labelled>, closing: Line)
    requires Carries(lines, actions, labels)
    ensures Carries(lines + [closing], actions, labels + [(closing, None)])
  {
  }

  // ---------------------------------------------------------------- the walk over the source's rules

  /** The walk of the rule list itself, every rule with its own action beside it. */
  function SourceWalk(env: Env, labels: seq<Labelled>, n: nat, c: Context, slot: Option<Stream>): Walked
    requires forall i :: 0 <= i < |labels| ==> labels[i].0.Some?
    decreases |labels|
  {
    if labels == [] then Walked(Unmatched, c, slot)
    else if !env.evaluate(labels[0].0.value, c) then SourceWalk(env, labels[1..], n + 1, c, slot)
    else
      match labels[0].1
      case None => Walked(Routed(n), c, slot)
      case Some(Sniff(sniffer)) =>
        var (c', slot') := AfterSniff(env, n, sniffer, c, slot);
        SourceWalk(env, labels[1..], n + 1, c', slot')
      case Some(Resolve) => SourceWalk(env, labels[1..], n + 1, AfterResolve(env, n, c), slot)
      case Some(HijackDns) => Walked(Hijacked(n), c, slot)
  }

  lemma CompiledParts(cfg: EngineConfig, labels: seq<Labelled>)
    requires Compiles(cfg, labels) && cfg.rules.Some?
    ensures |cfg.rules.value| == |labels| && forall i :: i in cfg.actions ==> i < |labels|
    ensures forall i :: 0 <= i < |labels| ==>
              labels[i] == (Some(cfg.rules.value[i]), if i in cfg.actions then Some(cfg.actions[i]) else None)
  {
  }

  /** Keying the actions by line index loses nothing: the router's walk over the loaded table is the
      walk over the source's rules, dropped rules left out, each line with its rule's action. */
  lemma {:induction false} WalkIsSourceWalk(
      env: Env, cfg: EngineConfig, labels: seq<Labelled>, n: nat, c: Context, slot: Option<Stream>)
    requires Compiles(cfg, labels) && cfg.rules.Some? && n <= |labels|
    ensures forall i :: 0 <= i < |labels| ==> labels[i].0.Some?
    ensures Walk(env, RuleTable(cfg.rules.value, cfg.actions), n, c, slot) == SourceWalk(env, labels[n..], n, c, slot)
    decreases |labels| - n
  {
    hide Compiles, AfterSniff, AfterResolve;
    CompiledParts(cfg, labels);
    if n < |labels| {
      assert labels[n..][0] == labels[n] && labels[n..][1..] == labels[n + 1..];
      if !env.evaluate(cfg.rules.value[n], c) {
        WalkIsSourceWalk(env, cfg, labels, n + 1, c, slot);
      } else if n in cfg.actions {
        match cfg.actions[n]
        case Sniff(sniffer) =>
          var (c', slot') := AfterSniff(env, n, sniffer, c, slot);
          WalkIsSourceWalk(env, cfg, labels, n + 1, c', slot');
        case Resolve => WalkIsSourceWalk(env, cfg, labels, n + 1, AfterResolve(env, n, c), slot);
        case HijackDns =>
      }
    }
  }

  ghost predicate Always(env: Env, rule: Rule) { forall c :: env.evaluate(rule, c) }

  /** The closing MATCH line decides whatever the rules before it let through. */
  lemma {:induction false} ClosingLineDecides(
      env: Env, labels: seq<Labelled>, n: nat, c: Context, slot: Option<Stream>)
    requires (forall i :: 0 <= i < |labels| ==> labels[i].0.Some?) && labels != [] && labels[|labels| - 1].1.None?
    requires Always(env, labels[|labels| - 1].0.value)
    ensures var route := SourceWalk(env, labels, n, c, slot).route;
            && (route.Routed? || route.Hijacked?) && n <= route.index < n + |labels|
            && (route.Hijacked? <==> labels[route.index - n].1 == Some(HijackDns))
    decreases |labels|
  {
    hide AfterSniff, AfterResolve;
    if |labels| > 1 {
      var rest := labels[1..];
      assert rest[|rest| - 1] == labels[|labels| - 1];
      if !env.evaluate(labels[0].0.value, c) {
        ClosingLineDecides(env, rest, n + 1, c, slot);
      } else if labels[0].1.Some? {
        match labels[0].1.value
        case Sniff(sniffer) =>
          var (c', slot') := AfterSniff(env, n, sniffer, c, slot);
          ClosingLineDecides(env, rest, n + 1, c', slot');
        case Resolve => ClosingLineDecides(env, rest, n + 1, AfterResolve(env, n, c), slot);
        case HijackDns =>
      }
    }
  }

  // ---------------------------------------------------------------- every loaded configuration

  /** A configuration file of either dialect; `loads` is whether the mihomo loader accepts it. */
  datatype Source =
    | Mihomo(loads: bool, outbounds: seq<string>, groups: seq<Group>, providers: seq<string>, rules: Option<seq<Rule>>)
    | SingBox(raw: RawConfig, matchLine: string -> Line)

  predicate Loads(source: Source) { if source.Mihomo? then source.loads else SingBoxLoads(source.raw) }

  /** Hijacked connections have somewhere to go. */
  predicate HijackSafe(cfg: EngineConfig) { cfg.actions != map[] ==> Configured(cfg, "dns") }

  /** What the dialect's own loader makes of the file; mihomo lines carry no actions. */
  ghost predicate FromDialect(source: Source, cfg: EngineConfig)
    requires Loads(source)
  {
    match source
    case Mihomo(_, outbounds, groups, providers, rules) =>
      cfg == EngineConfig(outbounds, groups, providers, rules, map[])
    case SingBox(raw, matchLine) => FromSingBox(raw, matchLine, cfg)
  }

  /** The file's configuration with the missing built-ins behind its own outbounds. */
  ghost predicate IsLoaded(source: Source, cfg: EngineConfig)
    requires Loads(source)
  {
    exists own :: FromDialect(source, own) && cfg == own.(outbounds := own.outbounds + Missing(own, |BUILTINS|))
  }

  /** `load`: either dialect, then the engine's own built-ins. */
  method Load(source: Source) returns (r: Result<EngineConfig>)
    ensures r.Ok? <==> Loads(source)
    ensures r.Ok? ==> IsLoaded(source, r.value)
  {
    hide Configured, FromSingBox, Missing, SingBoxLoads;
    var own: EngineConfig;
    match source {
    case Mihomo(loads, outbounds, groups, providers, rules) =>
      if !loads { return Err; }
      own := EngineConfig(outbounds, groups, providers, rules, map[]);
    case SingBox(raw, matchLine) =>
      var loaded := LoadSingBox(raw, matchLine);
      if loaded.Err? { return Err; }
      own := loaded.value;
    }
    assert FromDialect(source, own);
    var out := WithBuiltinOutbounds(own);
    return Ok(out);
  }

  /** The names the file itself declares. */
  ghost predicate Declared(source: Source, name: string) {
    match source
    case Mihomo(_, outbounds, groups, _, _) => name in outbounds || GroupNamed(groups, name)
    case SingBox(raw, _) => exists i :: 0 <= i < |raw.outbounds| && NameOf(raw.outbounds, i) == name
  }

  lemma SingBoxNames(raw: RawConfig, matchLine: string -> Line, cfg: EngineConfig, name: string)
    requires SingBoxLoads(raw) && FromSingBox(raw, matchLine, cfg)
    ensures Configured(cfg, name) <==> Declared(SingBox(raw, matchLine), name) || name in TAGS
  {
    hide Compiles, SourceLabels, Dialers, Groups, RulesConvert, Configured;
    var all := raw.outbounds + MissingTags(raw.outbounds, |TAGS|);
    TagsAreDeclared(raw.outbounds, |TAGS|);
    assert TAGS[..|TAGS|] == TAGS;
    AppendedLoad(raw.outbounds, all);
    GroupsOfDeclared(raw.outbounds, all, |all|);
    NamesAreEntries(all, cfg, name);
    if name in TAGS {
      assert Declares(all, name);
      var i :| 0 <= i < |all| && all[i].tag == Some(name);
      assert NameOf(all, i) == name;
    }
    if i :| 0 <= i < |raw.outbounds| && NameOf(raw.outbounds, i) == name {
      assert NameOf(all, i) == name;
    }
  }

  /** The configured names of a loaded configuration are exactly those its file declares, the
      built-ins of the dialect and the built-ins of the engine. */
  lemma LoadedNamesExactly(source: Source, cfg: EngineConfig, name: string)
    requires Loads(source) && IsLoaded(source, cfg)
    ensures Configured(cfg, name) <==>
            Declared(source, name) || (source.SingBox? && name in ["direct", "block", "dns"]) || name in BUILTINS
  {
    hide FromSingBox, SingBoxLoads, Missing;
    var own :| FromDialect(source, own) && cfg == own.(outbounds := own.outbounds + Missing(own, |BUILTINS|));
    MissingAre(own, |BUILTINS|, name);
    assert BUILTINS[..|BUILTINS|] == BUILTINS;
    if source.SingBox? { SingBoxNames(source.raw, source.matchLine, own, name); }
  }

  /** Nothing of the file is lost or changed: the groups with their members in order, the outbounds
      in front, mihomo's providers and rules without actions, sing-box's rules with their own. */
  lemma LoadedContents(source: Source, cfg: EngineConfig)
    requires Loads(source) && IsLoaded(source, cfg)
    ensures source.Mihomo? ==>
              && source.outbounds <= cfg.outbounds && cfg.groups == source.groups
              && cfg.providers == source.providers && cfg.rules == source.rules && cfg.actions == map[]
    ensures source.SingBox? ==>
              && Dialers(source.raw.outbounds, |source.raw.outbounds|) <= cfg.outbounds
              && cfg.groups == Groups(source.raw.outbounds, |source.raw.outbounds|)
              && exists own :: own <= cfg.outbounds && Compiles(cfg, SourceLabels(source.raw, own, source.matchLine))
  {
    hide Compiles, SourceLabels, Missing, Groups;
    var own :| FromDialect(source, own) && cfg == own.(outbounds := own.outbounds + Missing(own, |BUILTINS|));
    if source.SingBox? {
      var raw := source.raw.outbounds;
      var all := raw + MissingTags(raw, |TAGS|);
      DialersInFront(raw, all, |all|);
      SameCompile(own, cfg, SourceLabels(source.raw, own.outbounds, source.matchLine));
      assert own.outbounds <= cfg.outbounds;
    }
  }

  lemma SameCompile(own: EngineConfig, cfg: EngineConfig, labels: seq<Labelled>)
    requires Compiles(own, labels) && cfg.rules == own.rules && cfg.actions == own.actions
    ensures Compiles(cfg, labels)
  {
  }

  lemma {:induction false} DialersInFront(raw: seq<RawOutbound>, all: seq<RawOutbound>, n: nat)
    requires raw <= all && |raw| <= n <= |all|
    ensures Dialers(raw, |raw|) <= Dialers(all, n)
    decreases n
  {
    if n > |raw| { DialersInFront(raw, all, n - 1); } else { SameDialers(raw, all, n); }
  }

  lemma {:induction false} SameDialers(raw: seq<RawOutbound>, all: seq<RawOutbound>, n: nat)
    requires raw <= all && n <= |raw|
    ensures Dialers(all, n) == Dialers(raw, n)
  {
    if n > 0 {
      SameDialers(raw, all, n - 1);
      assert all[n - 1] == raw[n - 1];
    }
  }

  /** A file determines its configuration. */
  lemma LoadedIsUnique(source: Source, a: EngineConfig, b: EngineConfig)
    requires Loads(source) && IsLoaded(source, a) && IsLoaded(source, b)
    ensures a == b
  {
    hide Missing, Dialers, Groups, SourceLabels, Compiles;
    var x :| FromDialect(source, x) && a == x.(outbounds := x.outbounds + Missing(x, |BUILTINS|));
    var y :| FromDialect(source, y) && b == y.(outbounds := y.outbounds + Missing(y, |BUILTINS|));
    if source.SingBox? { CompilesOnce(x, y, SourceLabels(source.raw, x.outbounds, source.matchLine)); }
  }

  lemma CompilesOnce(x: EngineConfig, y: EngineConfig, labels: seq<Labelled>)
    requires Compiles(x, labels) && Compiles(y, labels)
    ensures x.rules == y.rules && x.actions == y.actions
  {
    var ls :| x.rules == Parsed(ls) && Carries(ls, x.actions, labels);
    var ms :| y.rules == Parsed(ms) && Carries(ms, y.actions, labels);
    forall i | 0 <= i < |labels| ensures ls[i] == ms[i] && (i in x.actions <==> i in y.actions) {
      assert labels[i].0 == ls[i] && labels[i].0 == ms[i];
    }
    assert ls == ms;
    forall i | i in x.actions ensures x.actions[i] == y.actions[i] {
      assert labels[i].1 == Some(x.actions[i]);
    }
  }

  lemma LoadedIsHijackSafe(source: Source, cfg: EngineConfig)
    requires Loads(source) && IsLoaded(source, cfg)
    ensures HijackSafe(cfg) && forall name :: name in BUILTINS ==> Configured(cfg, name)
  {
    hide IsLoaded, Configured;
    LoadedContents(source, cfg);
    forall name | name in BUILTINS ensures Configured(cfg, name) {
      LoadedNamesExactly(source, cfg, name);
    }
    LoadedNamesExactly(source, cfg, "dns");
  }

  /** Every accepted configuration in which hijacked connections have somewhere to go routes every
      connection, in every mode and whatever matches, to a configured outbound or group. */
  lemma LoadedRoutesAreConfigured(env: Env, cfg: EngineConfig, mode: Mode, c: Context, slot: Option<Stream>)
    requires HijackSafe(cfg) && Accepted(cfg) && forall name :: name in BUILTINS ==> Configured(cfg, name)
    ensures Configured(cfg, RouteWith(env, cfg, mode, c, slot))
  {
    hide Configured, RouteWith;
    NoHijackMeansConfigured(env, cfg, mode, c, slot);
  }

  /** `test`: succeeds exactly when the file loads to an accepted configuration, and that never
      routes to a name that does not exist. */
  method LoadAndTest(source: Source) returns (r: Result<EngineConfig>)
    ensures r.Ok? <==> Loads(source) && exists cfg :: IsLoaded(source, cfg) && Accepted(cfg)
    ensures r.Ok? ==> IsLoaded(source, r.value) && Accepted(r.value)
    ensures r.Ok? ==> forall env, mode, c, slot :: Configured(r.value, RouteWith(env, r.value, mode, c, slot))
  {
    hide Configured, RouteWith, HijackSafe, IsLoaded, Loads;
    r := Load(source);
    if r.Err? { return; }
    var verdict := Validate(r.value);
    if verdict.Err? {
      forall cfg | IsLoaded(source, cfg) ensures !Accepted(cfg) {
        LoadedIsUnique(source, cfg, r.value);
      }
      return Err;
    }
    LoadedIsHijackSafe(source, r.value);
    forall env, mode, c, slot ensures Configured(r.value, RouteWith(env, r.value, mode, c, slot)) {
      LoadedRoutesAreConfigured(env, r.value, mode, c, slot);
    }
  }
}
