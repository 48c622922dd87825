/** The pre-clean of leftover firewall state (core/src/firewall.rs): the rules that jump to
    foreign chains are deleted one by one from an `iptables -S` dump, then every foreign
    chain is flushed and deleted. The cleaner only sees text; the table it changes is the
    kernel's. */
module ForeignChains {
  import opened Common
  import opened Text

  // ---------------------------------------------------------------- the cleaner's text tests

  predicate EndsWith(s: string, suffix: string) {
    |suffix| <= |s| && s[|s| - |suffix|..] == suffix
  }

  /** The first index at which `pat` occurs in `s`, or |s| when it does not occur. */
  function Find(s: string, pat: string): (i: nat)
    ensures i <= |s|
    ensures i < |s| ==> i + |pat| <= |s|
  {
    if s == "" || pat <= s then 0 else 1 + Find(s[1..], pat)
  }

  lemma {:induction false} FindSkips(s: string, n: nat, pat: string)
    requires n <= |s| && forall k :: 0 <= k < n ==> !(pat <= s[k..])
    ensures Find(s, pat) == n + Find(s[n..], pat)
  {
    assert s[0..] == s;
    if n > 0 {
      assert !(pat <= s[0..]);
      assert forall k :: 0 <= k < n - 1 ==> s[1..][k..] == s[k + 1..];
      FindSkips(s[1..], n - 1, pat);
      assert s[1..][n - 1..] == s[n..];
    }
  }

  function WordLength(s: string): (n: nat)
    ensures n <= |s|
    ensures forall i :: 0 <= i < n ==> !IsSpace(s[i])
    ensures n < |s| ==> IsSpace(s[n])
  {
    if s == "" || IsSpace(s[0]) then 0 else 1 + WordLength(s[1..])
  }

  /** `split_whitespace`. */
  function Words(s: string): seq<string> {
    if s == "" then []
    else if IsSpace(s[0]) then Words(s[1..])
    else [s[..WordLength(s)]] + Words(s[WordLength(s)..])
  }

  predicate IsForeign(chain: string) {
    "shellcrash" <= chain || "mihomo" <= chain || "sing-box" <= chain
  }

  /** Foreign are exactly the names that begin with one of three words. */
  lemma ForeignNames(chain: string)
    ensures IsForeign(chain) <==>
            exists rest :: chain == "shellcrash" + rest || chain == "mihomo" + rest || chain == "sing-box" + rest
  {
    if "shellcrash" <= chain { assert chain == "shellcrash" + chain[10..]; }
    if "mihomo" <= chain { assert chain == "mihomo" + chain[6..]; }
    if "sing-box" <= chain { assert chain == "sing-box" + chain[8..]; }
  }

  /** `references_foreign_chain`: the first word after the first "-j " of the line. */
  predicate ReferencesForeignChain(line: string) {
    var at := Find(line, "-j ");
    at < |line| &&
    var rest := line[at + 3..];
    var words := Words(rest[..Find(rest, "-j ")]);
    words != [] && IsForeign(words[0])
  }

  /** `deletion_args`: the first "-A" becomes "-D", then the line is split at white space. */
  function DeletionArgs(line: string): seq<string> {
    var at := Find(line, "-A");
    Words(if at < |line| then line[..at] + "-D" + line[at + 2..] else line)
  }

  /** The lines kept by the jump filter, in dump order. */
  function JumpLines(dump: seq<string>): seq<string> {
    if dump == [] then []
    else (if "-A " <= dump[0] && ReferencesForeignChain(dump[0]) then [dump[0]] else [])
         + JumpLines(dump[1..])
  }

  /** `foreign_chains_in`. */
  function ForeignChainsIn(dump: seq<string>): seq<string> {
    if dump == [] then []
    else (if "-N " <= dump[0] && IsForeign(Trim(dump[0][3..])) then [Trim(dump[0][3..])] else [])
         + ForeignChainsIn(dump[1..])
  }

  // ---------------------------------------------------------------- the kernel's table

  /** One argument of a rule; the dump prints free text such as comments in quotes. */
  datatype Arg = Bare(text: string) | Quoted(text: string)

  datatype Target = NoTarget | Jump(name: string) | Goto(name: string)

  datatype Rule = Rule(matches: seq<Arg>, target: Target, options: seq<Arg>)

  type Chains = map<string, seq<Rule>>

  predicate IsWord(s: string) {
    s != "" && forall i :: 0 <= i < |s| ==> !IsSpace(s[i]) && s[i] != '"'
  }

  predicate ArgsOk(args: seq<Arg>) {
    forall i :: 0 <= i < |args| ==>
      if args[i].Bare? then IsWord(args[i].text) else '"' !in args[i].text
  }

  predicate RuleOk(r: Rule) {
    ArgsOk(r.matches) && ArgsOk(r.options) && (r.target == NoTarget || IsWord(r.target.name))
  }

  predicate AllBare(args: seq<Arg>) { forall i :: 0 <= i < |args| ==> args[i].Bare? }

  predicate Plain(r: Rule) { AllBare(r.matches) && AllBare(r.options) }

  predicate Names(r: Rule, chain: string) { r.target != NoTarget && r.target.name == chain }

  function Flag(t: Target): seq<string> {
    match t
    case NoTarget => []
    case Jump(name) => ["-j", name]
    case Goto(name) => ["-g", name]
  }

  function Values(args: seq<Arg>): seq<string> {
    if args == [] then [] else [args[0].text] + Values(args[1..])
  }

  /** The argument vector by which `iptables -D` finds a rule. */
  function Argv(chain: string, r: Rule): seq<string> {
    ["-D", chain] + Values(r.matches) + Flag(r.target) + Values(r.options)
  }

  function ArgsText(args: seq<Arg>): string {
    if args == [] then ""
    else (if args[0].Bare? then " " + args[0].text else " \"" + args[0].text + "\"") + ArgsText(args[1..])
  }

  function FlagText(t: Target): string {
    match t
    case NoTarget => ""
    case Jump(name) => " -j " + name
    case Goto(name) => " -g " + name
  }

  /** A rule as `iptables -S` prints it. */
  function LineText(chain: string, r: Rule): string {
    "-A " + chain + ArgsText(r.matches) + FlagText(r.target) + ArgsText(r.options)
  }

  function HeaderLine(chain: string, builtin: set<string>): string {
    if chain in builtin then "-P " + chain + " ACCEPT" else "-N " + chain
  }

  function HeaderLines(order: seq<string>, builtin: set<string>): seq<string> {
    if order == [] then [] else [HeaderLine(order[0], builtin)] + HeaderLines(order[1..], builtin)
  }

  function ChainLines(chain: string, rules: seq<Rule>): seq<string> {
    if rules == [] then [] else [LineText(chain, rules[0])] + ChainLines(chain, rules[1..])
  }

  function RuleLines(order: seq<string>, cs: Chains): seq<string> {
    if order == [] then []
    else (if order[0] in cs then ChainLines(order[0], cs[order[0]]) else []) + RuleLines(order[1..], cs)
  }

  predicate Referenced(cs: Chains, chain: string) {
    exists c :: c in cs && exists i :: 0 <= i < |cs[c]| && Names(cs[c][i], chain)
  }

  function RemoveFirst(rules: seq<Rule>, chain: string, argv: seq<string>): seq<Rule> {
    if rules == [] then []
    else if Argv(chain, rules[0]) == argv then rules[1..]
    else [rules[0]] + RemoveFirst(rules[1..], chain, argv)
  }

  /** `iptables -D`: at most one rule goes, the first with these arguments. */
  function AfterDelete(cs: Chains, argv: seq<string>): Chains {
    if |argv| >= 2 && argv[0] == "-D" && argv[1] in cs
    then cs[argv[1] := RemoveFirst(cs[argv[1]], argv[1], argv)]
    else cs
  }

  /** `iptables -F` followed by `iptables -X`, which needs an empty chain nothing refers to. */
  function AfterDrop(cs: Chains, builtin: set<string>, chain: string): Chains {
    if chain !in cs then cs
    else
      var flushed := cs[chain := []];
      if chain in builtin || Referenced(flushed, chain) then flushed else flushed - {chain}
  }

  function AfterDeletes(cs: Chains, lines: seq<string>): Chains {
    if lines == [] then cs else AfterDeletes(AfterDelete(cs, DeletionArgs(lines[0])), lines[1..])
  }

  function AfterDrops(cs: Chains, builtin: set<string>, fs: seq<string>): Chains {
    if fs == [] then cs else AfterDrops(AfterDrop(cs, builtin, fs[0]), builtin, fs[1..])
  }

  // ---------------------------------------------------------------- which lines find their rule

  predicate Detached(rest: string) { rest == "" || IsSpace(rest[0]) }

  lemma WordsOfWord(w: string, rest: string)
    requires IsWord(w) && Detached(rest)
    ensures Words(w + rest) == [w] + Words(rest)
  {
    var s := w + rest;
    assert forall i :: 0 <= i < |w| ==> s[i] == w[i];
    assert rest != "" ==> s[|w|] == rest[0];
    assert WordLength(s) == |w|;
    assert s[..|w|] == w && s[|w|..] == rest;
  }

  lemma WordsAfterSpace(w: string, rest: string)
    requires IsWord(w) && Detached(rest)
    ensures Words(" " + w + rest) == [w] + Words(rest)
  {
    assert (" " + w + rest)[1..] == w + rest;
    WordsOfWord(w, rest);
  }

  lemma {:induction false} WordsOfArgs(args: seq<Arg>, rest: string)
    requires ArgsOk(args) && AllBare(args) && Detached(rest)
    ensures Words(ArgsText(args) + rest) == Values(args) + Words(rest)
    ensures Detached(ArgsText(args) + rest)
  {
    hide Words, IsWord;
    if args == [] {
      assert ArgsText(args) + rest == rest;
    } else {
      WordsOfArgs(args[1..], rest);
      var tail := ArgsText(args[1..]) + rest;
      assert ArgsText(args) + rest == " " + args[0].text + tail;
      WordsAfterSpace(args[0].text, tail);
    }
  }

  lemma WordsOfPair(flag: string, name: string, rest: string)
    requires IsWord(flag) && IsWord(name) && Detached(rest)
    ensures Words(" " + flag + (" " + name + rest)) == [flag, name] + Words(rest)
  {
    hide Words, IsWord;
    WordsAfterSpace(name, rest);
    WordsAfterSpace(flag, " " + name + rest);
  }

  lemma WordsOfFlag(t: Target, rest: string)
    requires t == NoTarget || IsWord(t.name)
    requires Detached(rest)
    ensures Words(FlagText(t) + rest) == Flag(t) + Words(rest)
    ensures Detached(FlagText(t) + rest)
  {
    hide Words;
    if t == NoTarget {
      assert FlagText(t) + rest == rest;
    } else {
      WordsOfPair(Flag(t)[0], t.name, rest);
      assert FlagText(t) + rest == " " + Flag(t)[0] + (" " + t.name + rest);
    }
  }

  /** Everything of a rule's line after its first two characters. */
  function Tail(chain: string, r: Rule): string {
    " " + chain + (ArgsText(r.matches) + (FlagText(r.target) + ArgsText(r.options)))
  }

  lemma WordsOfTail(verb: string, chain: string, r: Rule)
    requires IsWord(verb) && IsWord(chain) && RuleOk(r) && Plain(r)
    ensures Words(verb + Tail(chain, r)) ==
            [verb] + ([chain] + (Values(r.matches) + (Flag(r.target) + Values(r.options))))
  {
    hide IsWord;
    assert Words("") == [];
    var options := ArgsText(r.options);
    WordsOfArgs(r.options, "");
    assert options + "" == options;
    WordsOfFlag(r.target, options);
    var flagged := FlagText(r.target) + options;
    WordsOfArgs(r.matches, flagged);
    WordsAfterSpace(chain, ArgsText(r.matches) + flagged);
    WordsOfWord(verb, Tail(chain, r));
  }

  lemma DeletionText(chain: string, r: Rule)
    ensures DeletionArgs(LineText(chain, r)) == Words("-D" + Tail(chain, r))
  {
    hide Words, ArgsText, FlagText;
    var line := LineText(chain, r);
    assert line == "-A" + Tail(chain, r);
    assert "-A" <= line;
    assert line[..0] + "-D" + line[0 + 2..] == "-D" + Tail(chain, r);
  }

  /** A rule printed without quotes is found by the arguments cut from its own line. */
  lemma PlainLineFindsItsRule(chain: string, r: Rule)
    requires IsWord(chain) && RuleOk(r) && Plain(r)
    ensures DeletionArgs(LineText(chain, r)) == Argv(chain, r)
  {
    hide Words, Find, Tail, DeletionArgs;
    WordsOfTail("-D", chain, r);
    DeletionText(chain, r);
  }

  lemma {:induction false} QuotesSurviveSplitting(s: string)
    requires '"' in s
    ensures exists i :: 0 <= i < |Words(s)| && '"' in Words(s)[i]
    decreases |s|
  {
    var n := WordLength(s);
    if IsSpace(s[0]) {
      QuotesSurviveSplitting(s[1..]);
      assert Words(s) == Words(s[1..]);
    } else if '"' in s[..n] {
      assert '"' in Words(s)[0];
    } else {
      assert s == s[..n] + s[n..];
      QuotesSurviveSplitting(s[n..]);
      var i :| 0 <= i < |Words(s[n..])| && '"' in Words(s[n..])[i];
      assert '"' in Words(s)[i + 1];
    }
  }

  lemma {:induction false} QuotedArgPrintsQuote(args: seq<Arg>)
    requires !AllBare(args)
    ensures '"' in ArgsText(args)
  {
    if args[0].Bare? { QuotedArgPrintsQuote(args[1..]); }
  }

  lemma {:induction false} ValuesQuoteFree(args: seq<Arg>)
    requires ArgsOk(args)
    ensures forall i :: 0 <= i < |Values(args)| ==> '"' !in Values(args)[i]
  {
    if args != [] { ValuesQuoteFree(args[1..]); }
  }

  lemma ArgvQuoteFree(chain: string, r: Rule)
    requires IsWord(chain) && RuleOk(r)
    ensures forall i :: 0 <= i < |Argv(chain, r)| ==> '"' !in Argv(chain, r)[i]
  {
    ValuesQuoteFree(r.matches);
    ValuesQuoteFree(r.options);
  }

  /** A rule printed with a quoted argument yields arguments that name no rule at all. */
  lemma QuotedLineFindsNothing(chain: string, r: Rule, other: string, q: Rule)
    requires RuleOk(r) && !Plain(r) && IsWord(other) && RuleOk(q)
    ensures DeletionArgs(LineText(chain, r)) != Argv(other, q)
  {
    if !AllBare(r.matches) { QuotedArgPrintsQuote(r.matches); } else { QuotedArgPrintsQuote(r.options); }
    DeletionText(chain, r);
    QuotesSurviveSplitting("-D" + Tail(chain, r));
    ArgvQuoteFree(other, q);
  }

  // ---------------------------------------------------------------- what the deletions leave

  /** The cleaner recognises the rule's line and the cut arguments name the rule. */
  predicate Removable(chain: string, r: Rule) {
    Plain(r) && ReferencesForeignChain(LineText(chain, r))
  }

  function Kept(chain: string, rules: seq<Rule>): seq<Rule> {
    if rules == [] then []
    else (if Removable(chain, rules[0]) then [] else [rules[0]]) + Kept(chain, rules[1..])
  }

  ghost predicate RulesOk(chain: string, rules: seq<Rule>) {
    && IsWord(chain)
    && (forall r :: r in rules ==> RuleOk(r))
    && (forall r, q | r in rules && q in rules :: Argv(chain, r) == Argv(chain, q) ==> r == q)
  }

  ghost predicate ChainsOk(cs: Chains) { forall c :: c in cs ==> RulesOk(c, cs[c]) }

  lemma {:induction false} RemoveFirstSkips(front: seq<Rule>, rest: seq<Rule>, chain: string, argv: seq<string>)
    requires forall i :: 0 <= i < |front| ==> Argv(chain, front[i]) != argv
    ensures RemoveFirst(front + rest, chain, argv) == front + RemoveFirst(rest, chain, argv)
  {
    hide Argv;
    if front == [] {
      assert front + rest == rest;
    } else {
      assert (front + rest)[1..] == front[1..] + rest;
      RemoveFirstSkips(front[1..], rest, chain, argv);
    }
  }

  lemma DeleteMisses(cs: Chains, argv: seq<string>)
    requires forall c, i :: c in cs && 0 <= i < |cs[c]| ==> Argv(c, cs[c][i]) != argv
    ensures AfterDelete(cs, argv) == cs
  {
    if |argv| >= 2 && argv[0] == "-D" && argv[1] in cs {
      var c := argv[1];
      RemoveFirstSkips(cs[c], [], c, argv);
      assert cs[c] + [] == cs[c];
    }
  }

  lemma DeleteHits(cs: Chains, chain: string, front: seq<Rule>, r: Rule, rest: seq<Rule>)
    requires chain in cs && cs[chain] == front + ([r] + rest)
    requires forall i :: 0 <= i < |front| ==> Argv(chain, front[i]) != Argv(chain, r)
    ensures AfterDelete(cs, Argv(chain, r)) == cs[chain := front + rest]
  {
    RemoveFirstSkips(front, [r] + rest, chain, Argv(chain, r));
  }

  /** Deleting by the line of a plain rule removes exactly that rule. */
  lemma DeleteByLine(cs: Chains, chain: string, front: seq<Rule>, r: Rule, rest: seq<Rule>)
    requires ChainsOk(cs) && chain in cs && cs[chain] == front + ([r] + rest)
    requires Plain(r) && r !in front
    ensures AfterDelete(cs, DeletionArgs(LineText(chain, r))) == cs[chain := front + rest]
  {
    var rules := cs[chain];
    assert RulesOk(chain, rules);
    assert rules[|front|] == r && forall i :: 0 <= i < |front| ==> rules[i] == front[i];
    PlainLineFindsItsRule(chain, r);
    DeleteHits(cs, chain, front, r, rest);
  }

  /** Deleting by the line of a rule with a quoted argument changes nothing. */
  lemma QuotedLineMisses(cs: Chains, chain: string, r: Rule)
    requires ChainsOk(cs) && RuleOk(r) && !Plain(r)
    ensures AfterDelete(cs, DeletionArgs(LineText(chain, r))) == cs
  {
    forall c, i | c in cs && 0 <= i < |cs[c]| ensures Argv(c, cs[c][i]) != DeletionArgs(LineText(chain, r)) {
      assert RulesOk(c, cs[c]);
      QuotedLineFindsNothing(chain, r, c, cs[c][i]);
    }
    DeleteMisses(cs, DeletionArgs(LineText(chain, r)));
  }

  lemma JumpLinesConcat(a: seq<string>, b: seq<string>)
    ensures JumpLines(a + b) == JumpLines(a) + JumpLines(b)
  {
    if a == [] {
      assert a + b == b;
    } else {
      assert (a + b)[1..] == a[1..] + b;
      JumpLinesConcat(a[1..], b);
    }
  }

  lemma {:induction false} AfterDeletesConcat(cs: Chains, a: seq<string>, b: seq<string>)
    ensures AfterDeletes(cs, a + b) == AfterDeletes(AfterDeletes(cs, a), b)
  {
    if a == [] {
      assert a + b == b;
    } else {
      assert (a + b)[1..] == a[1..] + b;
      AfterDeletesConcat(AfterDelete(cs, DeletionArgs(a[0])), a[1..], b);
    }
  }

  lemma FirstJumpLine(chain: string, rules: seq<Rule>)
    requires rules != []
    ensures JumpLines(ChainLines(chain, rules)) ==
            (if ReferencesForeignChain(LineText(chain, rules[0])) then [LineText(chain, rules[0])] else [])
            + JumpLines(ChainLines(chain, rules[1..]))
  {
    assert "-A " <= LineText(chain, rules[0]);
  }

  lemma DeleteFirstRule(cs: Chains, chain: string, front: seq<Rule>, r: Rule, rest: seq<Rule>)
    requires ChainsOk(cs) && chain in cs && cs[chain] == front + ([r] + rest)
    requires forall i :: 0 <= i < |front| ==> !Removable(chain, front[i])
    ensures AfterDeletes(cs, JumpLines(ChainLines(chain, [r] + rest))) ==
            AfterDeletes(if Removable(chain, r) then cs[chain := front + rest] else cs,
                         JumpLines(ChainLines(chain, rest)))
  {
    hide ReferencesForeignChain, LineText, DeletionArgs, Argv, JumpLines, ChainLines, AfterDelete;
    FirstJumpLine(chain, [r] + rest);
    assert RulesOk(chain, cs[chain]) && cs[chain][|front|] == r;
    assert ([r] + rest)[1..] == rest;
    var line, lines := LineText(chain, r), JumpLines(ChainLines(chain, rest));
    if ReferencesForeignChain(line) {
      if Plain(r) { DeleteByLine(cs, chain, front, r, rest); } else { QuotedLineMisses(cs, chain, r); }
      assert ([line] + lines)[1..] == lines;
    } else {
      assert [] + lines == lines;
    }
  }

  lemma KeepsOk(cs: Chains, chain: string, front: seq<Rule>, r: Rule, rest: seq<Rule>)
    requires ChainsOk(cs) && chain in cs && cs[chain] == front + ([r] + rest)
    ensures ChainsOk(cs[chain := front + rest])
  {
    var rules := front + rest;
    assert RulesOk(chain, cs[chain]);
    assert forall i :: 0 <= i < |rules| ==> rules[i] == cs[chain][if i < |front| then i else i + 1];
  }

  lemma {:induction false} DeletesOfChain(cs: Chains, chain: string, front: seq<Rule>, rest: seq<Rule>)
    requires ChainsOk(cs) && chain in cs && cs[chain] == front + rest
    requires forall i :: 0 <= i < |front| ==> !Removable(chain, front[i])
    ensures AfterDeletes(cs, JumpLines(ChainLines(chain, rest))) == cs[chain := front + Kept(chain, rest)]
    decreases |rest|
  {
    hide ReferencesForeignChain, LineText, DeletionArgs, Argv, AfterDelete;
    if rest == [] {
      assert cs[chain := front + []] == cs;
    } else {
      var r, rest' := rest[0], rest[1..];
      assert rest == [r] + rest';
      DeleteFirstRule(cs, chain, front, r, rest');
      if Removable(chain, r) {
        KeepsOk(cs, chain, front, r, rest');
        DeletesOfChain(cs[chain := front + rest'], chain, front, rest');
        assert Kept(chain, rest) == Kept(chain, rest');
      } else {
        assert front + rest == (front + [r]) + rest';
        DeletesOfChain(cs, chain, front + [r], rest');
        assert front + Kept(chain, rest) == (front + [r]) + Kept(chain, rest');
      }
    }
  }

  lemma DeletesOfFirst(cs: Chains, order: seq<string>)
    requires ChainsOk(cs) && order != [] && forall c :: c in order ==> c in cs
    ensures AfterDeletes(cs, JumpLines(RuleLines(order, cs))) ==
            AfterDeletes(cs[order[0] := Kept(order[0], cs[order[0]])], JumpLines(RuleLines(order[1..], cs)))
  {
    hide ReferencesForeignChain, LineText, DeletionArgs, Argv, AfterDelete, Kept, ChainLines, JumpLines, AfterDeletes;
    var c, lines := order[0], ChainLines(order[0], cs[order[0]]);
    JumpLinesConcat(lines, RuleLines(order[1..], cs));
    AfterDeletesConcat(cs, JumpLines(lines), JumpLines(RuleLines(order[1..], cs)));
    assert cs[c] == [] + cs[c];
    DeletesOfChain(cs, c, [], cs[c]);
    assert [] + Kept(c, cs[c]) == Kept(c, cs[c]);
  }

  lemma StillOk(cs: Chains, chain: string)
    requires ChainsOk(cs) && chain in cs
    ensures ChainsOk(cs[chain := Kept(chain, cs[chain])])
  {
    KeptOk(chain, cs[chain]);
  }

  lemma FirstNotAgain(order: seq<string>)
    requires Distinct(order) && order != []
    ensures order[0] !in order[1..] && Distinct(order[1..])
  {
  }

  lemma {:induction false} DeletesOfTable(cs: Chains, order: seq<string>)
    requires ChainsOk(cs) && Distinct(order) && forall c :: c in order ==> c in cs
    ensures var cs' := AfterDeletes(cs, JumpLines(RuleLines(order, cs)));
            && cs'.Keys == cs.Keys
            && forall c :: c in cs ==> cs'[c] == if c in order then Kept(c, cs[c]) else cs[c]
  {
    hide *;
    if order == [] {
      NoJumpLines(cs);
    } else {
      var c, order' := order[0], order[1..];
      assert order == [c] + order';
      DeletesOfFirst(cs, order);
      var cs' := cs[c := Kept(c, cs[c])];
      StillOk(cs, c);
      FirstNotAgain(order);
      SameRuleLines(order', cs, cs');
      DeletesOfTable(cs', order');
    }
  }

  lemma NoJumpLines(cs: Chains)
    ensures AfterDeletes(cs, JumpLines(RuleLines([], cs))) == cs
  {
  }

  lemma {:induction false} KeptOk(chain: string, rules: seq<Rule>)
    ensures forall r :: r in Kept(chain, rules) <==> r in rules && !Removable(chain, r)
    ensures RulesOk(chain, rules) ==> RulesOk(chain, Kept(chain, rules))
  {
    hide ReferencesForeignChain, LineText, Argv;
    if rules != [] {
      KeptOk(chain, rules[1..]);
      assert rules == [rules[0]] + rules[1..];
    }
  }

  lemma {:induction false} SameRuleLines(order: seq<string>, cs: Chains, cs': Chains)
    requires forall c :: c in order ==> c in cs && c in cs' && cs[c] == cs'[c]
    ensures RuleLines(order, cs) == RuleLines(order, cs')
  {
    if order != [] { SameRuleLines(order[1..], cs, cs'); }
  }

  // ---------------------------------------------------------------- what the chain drops leave

  function ForeignOf(order: seq<string>): seq<string> {
    if order == [] then [] else (if IsForeign(order[0]) then [order[0]] else []) + ForeignOf(order[1..])
  }

  /** What `iptables -S` prints: a header line for every chain, then every rule. */
  function Dump(order: seq<string>, builtin: set<string>, cs: Chains): seq<string> {
    HeaderLines(order, builtin) + RuleLines(order, cs)
  }

  lemma TrimWord(w: string)
    requires IsWord(w)
    ensures Trim(w) == w
  {
  }

  lemma HeaderLineRead(chain: string, builtin: set<string>)
    requires IsWord(chain)
    ensures var line := HeaderLine(chain, builtin);
            && !("-A " <= line)
            && ("-N " <= line <==> chain !in builtin)
            && (chain !in builtin ==> Trim(line[3..]) == chain)
  {
    var line := HeaderLine(chain, builtin);
    assert line[1] == (if chain in builtin then 'P' else 'N') && "-A "[1] == 'A' && "-N "[1] == 'N';
    assert ("-N " + chain)[3..] == chain;
    TrimWord(chain);
  }

  lemma FirstLine(line: string, more: seq<string>)
    requires !("-A " <= line)
    ensures JumpLines([line] + more) == JumpLines(more)
    ensures ForeignChainsIn([line] + more) ==
            (if "-N " <= line && IsForeign(Trim(line[3..])) then [Trim(line[3..])] else []) + ForeignChainsIn(more)
  {
    hide ReferencesForeignChain, Trim, IsForeign;
    assert ([line] + more)[1..] == more;
    assert [] + JumpLines(more) == JumpLines(more);
  }

  lemma ConcatAssoc<T>(a: seq<T>, b: seq<T>, c: seq<T>)
    ensures (a + b) + c == a + (b + c)
  {
  }

  lemma {:induction false} HeadersListForeign(order: seq<string>, builtin: set<string>, rest: seq<string>)
    requires forall c :: c in order ==> IsWord(c)
    requires forall c :: c in builtin ==> !IsForeign(c)
    ensures JumpLines(HeaderLines(order, builtin) + rest) == JumpLines(rest)
    ensures ForeignChainsIn(HeaderLines(order, builtin) + rest) == ForeignOf(order) + ForeignChainsIn(rest)
  {
    hide ReferencesForeignChain, Trim, IsForeign, HeaderLine, IsWord, JumpLines, ForeignChainsIn;
    if order == [] {
      assert HeaderLines(order, builtin) + rest == rest;
      assert ForeignOf(order) + ForeignChainsIn(rest) == ForeignChainsIn(rest);
    } else {
      var line, headers := HeaderLine(order[0], builtin), HeaderLines(order[1..], builtin);
      var first := if IsForeign(order[0]) then [order[0]] else [];
      HeaderLineRead(order[0], builtin);
      FirstLine(line, headers + rest);
      HeadersListForeign(order[1..], builtin, rest);
      ConcatAssoc([line], headers, rest);
      ConcatAssoc(first, ForeignOf(order[1..]), ForeignChainsIn(rest));
    }
  }

  lemma RuleLineIsNoHeader(chain: string, r: Rule)
    ensures !("-N " <= LineText(chain, r))
  {
    hide ArgsText, FlagText;
    assert LineText(chain, r)[1] == 'A' && "-N "[1] == 'N';
  }

  lemma {:induction false} ChainLinesListNone(chain: string, rules: seq<Rule>, rest: seq<string>)
    ensures ForeignChainsIn(ChainLines(chain, rules) + rest) == ForeignChainsIn(rest)
  {
    hide LineText, IsForeign, Trim;
    if rules == [] {
      assert ChainLines(chain, rules) + rest == rest;
    } else {
      assert (ChainLines(chain, rules) + rest)[1..] == ChainLines(chain, rules[1..]) + rest;
      RuleLineIsNoHeader(chain, rules[0]);
      ChainLinesListNone(chain, rules[1..], rest);
    }
  }

  lemma {:induction false} RuleLinesListNone(order: seq<string>, cs: Chains)
    requires forall c :: c in order ==> c in cs
    ensures ForeignChainsIn(RuleLines(order, cs)) == []
  {
    if order != [] {
      ChainLinesListNone(order[0], cs[order[0]], RuleLines(order[1..], cs));
      RuleLinesListNone(order[1..], cs);
    }
  }

  lemma {:induction false} ForeignOfIsFilter(order: seq<string>)
    requires Distinct(order)
    ensures Distinct(ForeignOf(order))
    ensures forall c :: c in ForeignOf(order) <==> c in order && IsForeign(c)
  {
    hide IsForeign;
    if order != [] {
      FirstNotAgain(order);
      ForeignOfIsFilter(order[1..]);
      assert order == [order[0]] + order[1..];
    }
  }

  /** Some rule outside the first `i + 1` foreign chains refers to the `i`th of them. */
  ghost predicate Blocked(cs: Chains, fs: seq<string>, i: nat)
    requires i < |fs|
  {
    exists c, r :: c in cs && c !in fs[..i + 1] && r in cs[c] && Names(r, fs[i])
  }

  lemma DropOne(cs: Chains, builtin: set<string>, f: string)
    requires f in cs && f !in builtin
    ensures var cs' := AfterDrop(cs, builtin, f);
            && (forall c :: c in cs && c != f ==> c in cs' && cs'[c] == cs[c])
            && (forall c :: c in cs' ==> c in cs)
            && (f in cs' ==> cs'[f] == [])
            && (f in cs' <==> exists c, r :: c in cs && c != f && r in cs[c] && Names(r, f))
  {
    var flushed := cs[f := []];
    if Referenced(flushed, f) {
      var c :| c in flushed && exists i :: 0 <= i < |flushed[c]| && Names(flushed[c][i], f);
      var i :| 0 <= i < |flushed[c]| && Names(flushed[c][i], f);
      assert flushed[c][i] in cs[c];
    } else {
      forall c, r | c in cs && c != f && r in cs[c] ensures !Names(r, f) {
        assert c in flushed;
        var i :| 0 <= i < |cs[c]| && cs[c][i] == r;
      }
    }
  }

  /** Handling the first chain does not change who blocks a later one. */
  lemma BlockedLater(cs: Chains, cs1: Chains, fs: seq<string>, i: nat)
    requires 0 < i < |fs|
    requires forall c :: c in cs && c != fs[0] ==> c in cs1 && cs1[c] == cs[c]
    requires forall c :: c in cs1 ==> c in cs
    requires fs[0] in cs1 ==> cs1[fs[0]] == []
    ensures Blocked(cs, fs, i) <==> Blocked(cs1, fs[1..], i - 1)
  {
    var fs' := fs[1..];
    assert fs[..i + 1] == [fs[0]] + fs'[..i];
    if Blocked(cs, fs, i) {
      var c, r :| c in cs && c !in fs[..i + 1] && r in cs[c] && Names(r, fs[i]);
      assert c in cs1 && c !in fs'[..i] && r in cs1[c];
    }
    if Blocked(cs1, fs', i - 1) {
      var c, r :| c in cs1 && c !in fs'[..i] && r in cs1[c] && Names(r, fs'[i - 1]);
      assert c != fs[0] && c in cs && c !in fs[..i + 1] && r in cs[c];
    }
  }

  /** A foreign chain survives the drops exactly when some rule outside it and outside the
      foreign chains listed before it still refers to it. */
  lemma {:induction false} DropsLeave(cs: Chains, builtin: set<string>, fs: seq<string>)
    requires Distinct(fs) && forall f :: f in fs ==> f in cs && f !in builtin
    ensures var cs' := AfterDrops(cs, builtin, fs);
            && (forall c :: c in cs' ==> c in cs)
            && (forall c :: c in cs && c !in fs ==> c in cs' && cs'[c] == cs[c])
            && (forall i :: 0 <= i < |fs| ==> (fs[i] in cs' <==> Blocked(cs, fs, i)))
            && (forall i :: 0 <= i < |fs| && fs[i] in cs' ==> cs'[fs[i]] == [])
  {
    if fs != [] {
      hide AfterDrop;
      var f, fs' := fs[0], fs[1..];
      var cs1 := AfterDrop(cs, builtin, f);
      FirstNotAgain(fs);
      assert fs == [f] + fs';
      DropOne(cs, builtin, f);
      DropsLeave(cs1, builtin, fs');
      assert fs[..1] == [f];
      assert Blocked(cs, fs, 0) <==> f in cs1;
      hide Blocked;
      forall i | 0 < i < |fs| ensures Blocked(cs, fs, i) <==> Blocked(cs1, fs', i - 1) {
        BlockedLater(cs, cs1, fs, i);
      }
    }
  }

  // ---------------------------------------------------------------- the whole clean

  /** What the kernel guarantees of a table: no built-in chain with a foreign name, no dangling
      reference, and rules told apart by their arguments. */
  ghost predicate WellFormed(builtin: set<string>, cs: Chains) {
    && (forall c :: c in builtin ==> c in cs && !IsForeign(c))
    && ChainsOk(cs)
    && (forall c, r :: c in cs && r in cs[c] && r.target != NoTarget && IsForeign(r.target.name) ==>
          r.target.name in cs)
  }

  /** A well-formed table whose chains are listed in `order`. */
  ghost predicate TableOk(order: seq<string>, builtin: set<string>, cs: Chains) {
    Distinct(order) && (forall c :: c in order <==> c in cs) && WellFormed(builtin, cs)
  }

  lemma FewerRulesOk(chain: string, rules: seq<Rule>, fewer: seq<Rule>)
    requires RulesOk(chain, rules) && forall r :: r in fewer ==> r in rules
    ensures RulesOk(chain, fewer)
  {
    hide Argv, IsWord, RuleOk;
  }

  lemma {:induction false} RemoveFirstFewer(rules: seq<Rule>, chain: string, argv: seq<string>)
    ensures forall r :: r in RemoveFirst(rules, chain, argv) ==> r in rules
  {
    hide Argv;
    if rules != [] {
      RemoveFirstFewer(rules[1..], chain, argv);
      assert rules == [rules[0]] + rules[1..];
    }
  }

  lemma FewerKeepsWellFormed(builtin: set<string>, cs: Chains, chain: string, fewer: seq<Rule>)
    requires WellFormed(builtin, cs) && chain in cs && forall r :: r in fewer ==> r in cs[chain]
    ensures WellFormed(builtin, cs[chain := fewer])
  {
    hide RulesOk, IsForeign;
    FewerRulesOk(chain, cs[chain], fewer);
  }

  lemma DeleteKeepsWellFormed(builtin: set<string>, cs: Chains, argv: seq<string>)
    requires WellFormed(builtin, cs)
    ensures WellFormed(builtin, AfterDelete(cs, argv)) && AfterDelete(cs, argv).Keys == cs.Keys
  {
    hide WellFormed, RemoveFirst;
    if |argv| >= 2 && argv[0] == "-D" && argv[1] in cs {
      RemoveFirstFewer(cs[argv[1]], argv[1], argv);
      FewerKeepsWellFormed(builtin, cs, argv[1], RemoveFirst(cs[argv[1]], argv[1], argv));
    }
  }

  lemma UnreferencedGoes(builtin: set<string>, cs: Chains, chain: string)
    requires WellFormed(builtin, cs) && chain !in builtin && !Referenced(cs, chain)
    ensures WellFormed(builtin, cs - {chain})
  {
    hide RulesOk, IsForeign;
    forall c, r | c in cs && r in cs[c] ensures !Names(r, chain) {
      var i :| 0 <= i < |cs[c]| && cs[c][i] == r;
    }
  }

  lemma DropKeepsWellFormed(builtin: set<string>, cs: Chains, chain: string)
    requires WellFormed(builtin, cs)
    ensures WellFormed(builtin, AfterDrop(cs, builtin, chain))
  {
    hide WellFormed, Referenced;
    if chain in cs {
      FewerKeepsWellFormed(builtin, cs, chain, []);
      if chain !in builtin && !Referenced(cs[chain := []], chain) { UnreferencedGoes(builtin, cs[chain := []], chain); }
    }
  }

  lemma {:induction false} DeletesKeepWellFormed(builtin: set<string>, cs: Chains, lines: seq<string>)
    requires WellFormed(builtin, cs)
    ensures WellFormed(builtin, AfterDeletes(cs, lines))
    decreases lines
  {
    hide WellFormed, AfterDelete, DeletionArgs;
    if lines != [] {
      DeleteKeepsWellFormed(builtin, cs, DeletionArgs(lines[0]));
      DeletesKeepWellFormed(builtin, AfterDelete(cs, DeletionArgs(lines[0])), lines[1..]);
    }
  }

  lemma {:induction false} DropsKeepWellFormed(builtin: set<string>, cs: Chains, fs: seq<string>)
    requires WellFormed(builtin, cs)
    ensures WellFormed(builtin, AfterDrops(cs, builtin, fs))
    decreases fs
  {
    hide WellFormed, AfterDrop;
    if fs != [] {
      DropKeepsWellFormed(builtin, cs, fs[0]);
      DropsKeepWellFormed(builtin, AfterDrop(cs, builtin, fs[0]), fs[1..]);
    }
  }

  /** The clean leaves a table that can be cleaned again. */
  lemma CleanedIsWellFormed(order: seq<string>, builtin: set<string>, cs: Chains)
    requires WellFormed(builtin, cs)
    ensures WellFormed(builtin, Cleaned(order, builtin, cs))
  {
    hide WellFormed, AfterDeletes, AfterDrops, JumpLines, ForeignChainsIn, Dump;
    var dump := Dump(order, builtin, cs);
    DeletesKeepWellFormed(builtin, cs, JumpLines(dump));
    DropsKeepWellFormed(builtin, AfterDeletes(cs, JumpLines(dump)), ForeignChainsIn(dump));
  }

  function Cleaned(order: seq<string>, builtin: set<string>, cs: Chains): Chains {
    var dump := Dump(order, builtin, cs);
    AfterDrops(AfterDeletes(cs, JumpLines(dump)), builtin, ForeignChainsIn(dump))
  }

  ghost predicate NamesForeign(r: Rule) { r.target != NoTarget && IsForeign(r.target.name) }

  ghost predicate IsClean(cs: Chains) {
    && (forall c :: c in cs ==> !IsForeign(c))
    && (forall c, r :: c in cs && r in cs[c] ==> !NamesForeign(r))
  }

  ghost predicate Before(order: seq<string>, f: string, c: string) {
    exists i, j :: 0 <= i < j < |order| && order[i] == f && order[j] == c
  }

  /** A rule the cleaner cannot remove refers to a foreign chain, from an ordinary chain or
      from a foreign chain listed after the one it refers to. */
  ghost predicate Stuck(order: seq<string>, cs: Chains) {
    exists c, r :: c in cs && r in cs[c] && !Removable(c, r) && NamesForeign(r)
                   && (!IsForeign(c) || Before(order, r.target.name, c))
  }

  lemma {:induction false} ForeignOfKeepsOrder(order: seq<string>)
    ensures forall i, j :: 0 <= i < j < |ForeignOf(order)| ==> Before(order, ForeignOf(order)[i], ForeignOf(order)[j])
    ensures forall c :: c in ForeignOf(order) ==> c in order
  {
    hide IsForeign;
    if order != [] {
      var fs, fs' := ForeignOf(order), ForeignOf(order[1..]);
      ForeignOfKeepsOrder(order[1..]);
      forall i, j | 0 <= i < j < |fs| ensures Before(order, fs[i], fs[j]) {
        var d := |fs| - |fs'|;
        assert fs[j] == fs'[j - d];
        if i < d {
          assert fs'[j - d] in fs';
          var k :| 0 <= k < |order[1..]| && order[1..][k] == fs[j];
          assert order[k + 1] == fs[j];
        } else {
          var x, y :| 0 <= x < y < |order[1..]| && order[1..][x] == fs'[i - d] && order[1..][y] == fs'[j - d];
          assert order[x + 1] == fs[i] && order[y + 1] == fs[j];
        }
      }
    }
  }

  lemma CleanedInSteps(order: seq<string>, builtin: set<string>, cs: Chains) returns (cs1: Chains)
    requires TableOk(order, builtin, cs)
    ensures Cleaned(order, builtin, cs) == AfterDrops(cs1, builtin, ForeignOf(order))
    ensures cs1.Keys == cs.Keys && forall c :: c in cs ==> cs1[c] == Kept(c, cs[c])
  {
    hide ReferencesForeignChain, LineText, DeletionArgs, Argv, AfterDelete, Kept, IsForeign, JumpLines, ForeignChainsIn;
    cs1 := AfterDeletes(cs, JumpLines(RuleLines(order, cs)));
    HeadersListForeign(order, builtin, RuleLines(order, cs));
    RuleLinesListNone(order, cs);
    assert ForeignOf(order) + [] == ForeignOf(order);
    DeletesOfTable(cs, order);
  }

  /** For every table: the ordinary chains keep exactly the rules the cleaner cannot remove, in
      their order, and the table ends clean if and only if it was not stuck. */
  lemma CleanExactlyWhenNotStuck(order: seq<string>, builtin: set<string>, cs: Chains)
    requires TableOk(order, builtin, cs)
    ensures var cs' := Cleaned(order, builtin, cs);
            && (forall c :: c in cs' ==> c in cs)
            && (forall c :: c in cs && !IsForeign(c) ==> c in cs' && cs'[c] == Kept(c, cs[c]))
            && (forall c :: c in cs' && IsForeign(c) ==> cs'[c] == [])
            && (IsClean(cs') <==> !Stuck(order, cs))
  {
    hide Kept, IsForeign, Removable, Cleaned, AfterDrops, ForeignOf, Before, RulesOk, Blocked;
    var cs1 := CleanedInSteps(order, builtin, cs);
    var fs := ForeignOf(order);
    ForeignOfIsFilter(order);
    ForeignOfKeepsOrder(order);
    DropsLeave(cs1, builtin, fs);
    forall c | c in cs ensures forall r :: r in cs1[c] <==> r in cs[c] && !Removable(c, r) {
      KeptOk(c, cs[c]);
    }
    if Stuck(order, cs) {
      var c, r :| c in cs && r in cs[c] && !Removable(c, r) && NamesForeign(r)
                  && (!IsForeign(c) || Before(order, r.target.name, c));
      StuckBlocks(order, cs1, fs, c, r);
    } else {
      NotStuckUnblocks(order, cs, cs1, fs);
    }
  }

  lemma NotStuckUnblocks(order: seq<string>, cs: Chains, cs1: Chains, fs: seq<string>)
    requires cs1.Keys == cs.Keys && !Stuck(order, cs)
    requires forall c :: c in cs ==> forall r :: r in cs1[c] <==> r in cs[c] && !Removable(c, r)
    requires forall i, j :: 0 <= i < j < |fs| ==> Before(order, fs[i], fs[j])
    requires forall c :: c in cs && IsForeign(c) ==> c in fs
    requires forall c :: c in fs ==> IsForeign(c)
    ensures forall i :: 0 <= i < |fs| ==> !Blocked(cs1, fs, i)
  {
    hide IsForeign, Removable, Before;
    forall i, c, r | 0 <= i < |fs| && c in cs1 && c !in fs[..i + 1] && r in cs1[c] ensures !Names(r, fs[i]) {
      assert c in fs ==> exists j :: i < j < |fs| && fs[j] == c;
    }
  }

  lemma StuckBlocks(order: seq<string>, cs1: Chains, fs: seq<string>, c: string, r: Rule)
    requires Distinct(order) && c in cs1 && r in cs1[c] && NamesForeign(r) && r.target.name in fs
    requires forall i, j :: 0 <= i < j < |fs| ==> Before(order, fs[i], fs[j])
    requires forall d :: d in fs ==> IsForeign(d)
    requires !IsForeign(c) || Before(order, r.target.name, c)
    ensures exists i :: 0 <= i < |fs| && Blocked(cs1, fs, i)
  {
    hide IsForeign;
    var i :| 0 <= i < |fs| && fs[i] == r.target.name;
    forall k | 0 <= k <= i ensures fs[k] != c {
      assert k < i ==> Before(order, fs[k], fs[i]);
    }
    assert Names(r, fs[i]);
    assert Blocked(cs1, fs, i);
  }

  /** An ordinary chain holds a rule that refers to a foreign chain and that cannot be removed. */
  ghost predicate Held(cs: Chains) {
    exists c, r :: c in cs && !IsForeign(c) && r in cs[c] && !Removable(c, r) && NamesForeign(r)
  }

  lemma {:induction false} KeptTwice(chain: string, rules: seq<Rule>)
    ensures Kept(chain, Kept(chain, rules)) == Kept(chain, rules)
  {
    hide Removable;
    if rules != [] {
      KeptTwice(chain, rules[1..]);
      var rest := Kept(chain, rules[1..]);
      assert ([rules[0]] + rest)[1..] == rest && [] + rest == rest;
    }
  }

  /** A second clean changes no ordinary chain, changes nothing at all after a clean first one, and
      ends clean exactly when no ordinary chain holds on: whatever foreign chains referred to each
      other is gone after two. */
  lemma SecondClean(order: seq<string>, builtin: set<string>, cs: Chains, order': seq<string>)
    requires TableOk(order, builtin, cs)
    requires Distinct(order') && forall c :: c in order' <==> c in Cleaned(order, builtin, cs)
    ensures TableOk(order', builtin, Cleaned(order, builtin, cs))
    ensures var once := Cleaned(order, builtin, cs);
            var twice := Cleaned(order', builtin, once);
            && (forall c :: c in once && !IsForeign(c) ==> c in twice && twice[c] == once[c])
            && (IsClean(once) ==> twice == once)
            && (IsClean(twice) <==> !Held(cs))
  {
    hide Kept, IsForeign, Removable, Cleaned, Before, RulesOk;
    var once := Cleaned(order, builtin, cs);
    CleanedIsWellFormed(order, builtin, cs);
    CleanExactlyWhenNotStuck(order, builtin, cs);
    CleanExactlyWhenNotStuck(order', builtin, once);
    forall c | c in cs && !IsForeign(c)
      ensures Kept(c, once[c]) == once[c]
      ensures forall r :: r in once[c] <==> r in cs[c] && !Removable(c, r)
    {
      KeptTwice(c, cs[c]);
      KeptOk(c, cs[c]);
    }
    assert Stuck(order', once) <==> Held(once);
    assert Held(once) <==> Held(cs);
  }

  // ---------------------------------------------------------------- which lines are recognised

  predicate Quiet(w: string) { IsWord(w) && !EndsWith(w, "-j") }

  lemma JumpFlagAt(s: string, k: nat)
    requires k <= |s|
    ensures "-j " <= s[k..] <==> k + 2 < |s| && s[k] == '-' && s[k + 1] == 'j' && s[k + 2] == ' '
  {
    if k + 2 < |s| { assert s[k..][..3] == [s[k], s[k + 1], s[k + 2]]; }
  }

  /** "-j " cannot start inside a word unless the word ends with it. */
  lemma FindSkipsWord(w: string, rest: string)
    requires Quiet(w) && Detached(rest)
    ensures Find(w + rest, "-j ") == |w| + Find(rest, "-j ")
  {
    hide Find;
    var s := w + rest;
    assert forall i :: 0 <= i < |w| ==> s[i] == w[i];
    assert rest != "" ==> IsSpace(s[|w|]);
    assert |w| >= 2 ==> w[|w| - 2..] == [w[|w| - 2], w[|w| - 1]];
    forall k | 0 <= k < |w| ensures !("-j " <= s[k..]) {
      JumpFlagAt(s, k);
    }
    FindSkips(s, |w|, "-j ");
    assert s[|w|..] == rest;
  }

  lemma FindSkipsSpacedWord(w: string, rest: string)
    requires Quiet(w) && Detached(rest)
    ensures Find(" " + w + rest, "-j ") == 1 + |w| + Find(rest, "-j ")
  {
    hide *;
    var s := " " + w + rest;
    JumpFlagAt(s, 0);
    FindSkips(s, 1, "-j ");
    assert s[1..] == w + rest;
    FindSkipsWord(w, rest);
  }

  lemma {:induction false} FindSkipsArgs(args: seq<Arg>, rest: string)
    requires AllBare(args) && (forall i :: 0 <= i < |args| ==> Quiet(args[i].text)) && Detached(rest)
    ensures Find(ArgsText(args) + rest, "-j ") == |ArgsText(args)| + Find(rest, "-j ")
    ensures Detached(ArgsText(args) + rest)
  {
    hide Words, IsWord;
    hide Find;
    if args == [] {
      assert ArgsText(args) + rest == rest;
    } else {
      FindSkipsArgs(args[1..], rest);
      var tail := ArgsText(args[1..]) + rest;
      assert ArgsText(args) + rest == " " + args[0].text + tail;
      FindSkipsSpacedWord(args[0].text, tail);
    }
  }

  predicate QuietRule(chain: string, r: Rule) {
    && Quiet(chain) && Plain(r)
    && (forall i :: 0 <= i < |r.matches| ==> Quiet(r.matches[i].text))
    && (forall i :: 0 <= i < |r.options| ==> Quiet(r.options[i].text))
    && (r.target == NoTarget || Quiet(r.target.name))
  }

  lemma FindSkipsFront(chain: string, r: Rule, rest: string)
    requires QuietRule(chain, r) && Detached(rest)
    ensures var front := "-A " + chain + ArgsText(r.matches);
            Find(front + rest, "-j ") == |front| + Find(rest, "-j ")
  {
    hide Find, ArgsText;
    FindSkipsArgs(r.matches, rest);
    var args := ArgsText(r.matches);
    FindSkipsSpacedWord(chain, args + rest);
    FindSkipsWord("-A", " " + chain + (args + rest));
    FrontText(chain, args, rest);
  }

  lemma FrontText(chain: string, args: string, rest: string)
    ensures "-A " + chain + args + rest == "-A" + (" " + chain + (args + rest))
  {
  }

  lemma NoJumpFlagInTail(r: Rule)
    requires QuietRule("x", r) && !r.target.Jump?
    ensures var tail := FlagText(r.target) + ArgsText(r.options);
            Find(tail, "-j ") == |tail| && Detached(tail)
  {
    hide Find;
    var options := ArgsText(r.options);
    FindSkipsArgs(r.options, "");
    assert options + "" == options;
    FindInEmpty();
    if r.target.Goto? {
      var name := r.target.name;
      FindSkipsSpacedWord(name, options);
      FindSkipsSpacedWord(Flag(r.target)[0], " " + name + options);
      assert FlagText(r.target) + options == " " + Flag(r.target)[0] + (" " + name + options);
    } else {
      assert FlagText(r.target) + options == options;
    }
  }

  lemma ArgsDetached(options: seq<Arg>, cut: nat)
    requires cut <= |ArgsText(options)|
    ensures Detached(ArgsText(options)) && Detached(ArgsText(options)[..cut])
  {
  }

  lemma QuietIsWord(w: string)
    requires Quiet(w)
    ensures IsWord(w)
  {
  }

  /** The word the cleaner reads off a jump's line is the jump's target. */
  lemma JumpTargetRead(name: string, options: seq<Arg>)
    requires Quiet(name) && AllBare(options) && forall i :: 0 <= i < |options| ==> Quiet(options[i].text)
    ensures var after := name + ArgsText(options);
            var words := Words(after[..Find(after, "-j ")]);
            words != [] && words[0] == name
  {
    hide *;
    var text := ArgsText(options);
    var cut := Find(text, "-j ");
    ArgsDetached(options, cut);
    TargetBefore(name, text, cut);
  }

  lemma TargetBefore(name: string, text: string, cut: nat)
    requires Quiet(name) && Detached(text) && cut == Find(text, "-j ") && Detached(text[..cut])
    ensures var words := Words((name + text)[..Find(name + text, "-j ")]);
            words != [] && words[0] == name
  {
    hide *;
    QuietIsWord(name);
    FindSkipsWord(name, text);
    PrefixPastFront(name, text, cut);
    var front := text[..cut];
    WordsOfWord(name, front);
    FirstOfConcat(name, Words(front));
  }

  lemma FirstOfConcat<T>(x: T, rest: seq<T>)
    ensures [x] + rest != [] && ([x] + rest)[0] == x
  {
  }

  lemma PrefixPastFront(front: string, text: string, cut: nat)
    requires cut <= |text|
    ensures (front + text)[..|front| + cut] == front + text[..cut]
  {
  }

  /** On a line without quotes and without words ending in "-j", the cleaner recognises exactly
      the jumps to foreign chains; it never recognises a goto. */
  lemma RecognisesExactlyForeignJumps(chain: string, r: Rule)
    requires QuietRule(chain, r)
    ensures ReferencesForeignChain(LineText(chain, r)) <==> r.target.Jump? && IsForeign(r.target.name)
  {
    hide Find, IsForeign, Words, ArgsText;
    var front, tail := "-A " + chain + ArgsText(r.matches), FlagText(r.target) + ArgsText(r.options);
    assert LineText(chain, r) == front + tail;
    if r.target.Jump? {
      var after := r.target.name + ArgsText(r.options);
      assert tail == " -j " + after;
      FindSkipsFront(chain, r, tail);
      JumpFlagFound(after);
      assert (front + tail)[|front| + 1 + 3..] == after;
      JumpTargetRead(r.target.name, r.options);
    } else {
      assert QuietRule("x", r);
      NoJumpFlagInTail(r);
      FindSkipsFront(chain, r, tail);
    }
  }

  lemma FindInEmpty()
    ensures Find("", "-j ") == 0
  {
  }

  lemma JumpFlagFound(after: string)
    ensures Find(" -j " + after, "-j ") == 1
  {
    var s := " -j " + after;
    JumpFlagAt(s, 0);
    JumpFlagAt(s, 1);
    assert s[0..] == s && s[1..] == "-j " + after;
  }

  /** Every table whose references to foreign chains are plain `-j` jumps ends clean. */
  lemma JumpsOnlyTablesEndClean(order: seq<string>, builtin: set<string>, cs: Chains)
    requires TableOk(order, builtin, cs)
    requires forall c, r :: c in cs && r in cs[c] && NamesForeign(r) ==> r.target.Jump? && QuietRule(c, r)
    ensures IsClean(Cleaned(order, builtin, cs))
  {
    hide *;
    assert !Stuck(order, cs) by {
      forall c, r | c in cs && r in cs[c] && NamesForeign(r) ensures Removable(c, r) {
        JumpIsRemovable(c, r);
      }
      NotStuck(order, cs);
    }
    CleanExactlyWhenNotStuck(order, builtin, cs);
  }

  lemma JumpIsRemovable(c: string, r: Rule)
    requires QuietRule(c, r) && NamesForeign(r) && r.target.Jump?
    ensures Removable(c, r)
  {
    RecognisesExactlyForeignJumps(c, r);
  }

  lemma NotStuck(order: seq<string>, cs: Chains)
    requires forall c, r :: c in cs && r in cs[c] && NamesForeign(r) ==> Removable(c, r)
    ensures !Stuck(order, cs)
  {
    hide Removable, NamesForeign;
  }

  /** A quoted argument on one jump is enough to leave the foreign chain behind. */
  lemma QuotedJumpStaysBehind(hook: string, f: string, jump: Rule)
    requires IsWord(hook) && IsWord(f) && !IsForeign(hook) && IsForeign(f)
    requires RuleOk(jump) && !Plain(jump) && Names(jump, f)
    ensures TableOk([hook, f], {hook}, map[hook := [jump], f := []])
    ensures !IsClean(Cleaned([hook, f], {hook}, map[hook := [jump], f := []]))
  {
    hide ReferencesForeignChain, Argv, Cleaned, IsForeign, IsWord, RuleOk, Plain;
    var cs := map[hook := [jump], f := []];
    assert jump in cs[hook] && !Removable(hook, jump);
    assert RulesOk(hook, [jump]) && RulesOk(f, []);
    CleanExactlyWhenNotStuck([hook, f], {hook}, cs);
  }

  lemma CommentedJumpStaysBehind()
    ensures !IsClean(Cleaned(["OUTPUT", "mihomo"], {"OUTPUT"},
                             map["OUTPUT" := [Rule([Quoted("old hijack")], Jump("mihomo"), [])], "mihomo" := []]))
  {
    hide Removable, Argv, Cleaned, IsForeign, IsWord, IsClean;
    var jump := Rule([Quoted("old hijack")], Jump("mihomo"), []);
    ExampleNames();
    assert jump.matches[0].Quoted?;
    QuotedJumpStaysBehind("OUTPUT", "mihomo", jump);
  }

  lemma ExampleNames()
    ensures IsWord("OUTPUT") && IsWord("mihomo") && !IsForeign("OUTPUT") && IsForeign("mihomo")
  {
    assert "OUTPUT"[0] == 'O' && "shellcrash"[0] == 's' && "mihomo"[0] == 'm' && "sing-box"[0] == 's';
  }

  // ---------------------------------------------------------------- the imperative cleaner

  datatype Removed = JumpRemoved(line: string) | ChainDeleted(chain: string)

  /** The chains of `order` that are still there, in their order. */
  function Surviving(order: seq<string>, cs: Chains): seq<string> {
    if order == [] then [] else (if order[0] in cs then [order[0]] else []) + Surviving(order[1..], cs)
  }

  lemma {:induction false} SurvivingLists(order: seq<string>, cs: Chains)
    requires Distinct(order)
    ensures Distinct(Surviving(order, cs)) && forall c :: c in Surviving(order, cs) <==> c in order && c in cs
  {
    if order != [] {
      FirstNotAgain(order);
      SurvivingLists(order[1..], cs);
      assert order == [order[0]] + order[1..];
    }
  }

  lemma {:induction false} AllSurvive(order: seq<string>, cs: Chains)
    requires forall c :: c in order ==> c in cs
    ensures Surviving(order, cs) == order
  {
    if order != [] { AllSurvive(order[1..], cs); }
  }

  lemma {:induction false} SurvivingTwice(order: seq<string>, cs: Chains, cs': Chains)
    requires forall c :: c in cs' ==> c in cs
    ensures Surviving(Surviving(order, cs), cs') == Surviving(order, cs')
  {
    if order != [] {
      SurvivingTwice(order[1..], cs, cs');
      var rest := Surviving(order[1..], cs);
      assert ([order[0]] + rest)[1..] == rest && [] + rest == rest;
    }
  }

  /** One table of one tool, as the kernel holds it. */
  class IpTable {
    const builtin: set<string>
    var order: seq<string>
    var chains: Chains

    ghost predicate Valid()
      reads this
    {
      TableOk(order, builtin, chains)
    }

    constructor (order: seq<string>, builtin: set<string>, chains: Chains)
      requires TableOk(order, builtin, chains)
      ensures Valid() && this.order == order && this.builtin == builtin && this.chains == chains
    {
      this.order, this.builtin, this.chains := order, builtin, chains;
    }

    /** `iptables -D`; succeeds when it finds a rule. */
    method Delete(argv: seq<string>) returns (ok: bool)
      requires Valid()
      modifies this`chains
      ensures Valid() && chains == AfterDelete(old(chains), argv) && chains.Keys == old(chains).Keys
      ensures ok <==> chains != old(chains)
    {
      hide AfterDelete, WellFormed, Distinct;
      DeleteKeepsWellFormed(builtin, chains, argv);
      var after := AfterDelete(chains, argv);
      ok := after != chains;
      chains := after;
    }

    /** `iptables -F`. */
    method Flush(chain: string)
      requires Valid()
      modifies this`chains
      ensures Valid() && chains == if chain in old(chains) then old(chains)[chain := []] else old(chains)
    {
      hide WellFormed, Distinct;
      if chain in chains {
        FewerKeepsWellFormed(builtin, chains, chain, []);
        chains := chains[chain := []];
      }
    }

    /** `iptables -X`: refused for a built-in, filled or referenced chain. */
    method DeleteChain(chain: string) returns (ok: bool)
      requires Valid()
      modifies this
      ensures Valid()
      ensures ok <==>
              && chain in old(chains) && chain !in builtin
              && old(chains)[chain] == [] && !Referenced(old(chains), chain)
      ensures chains == if ok then old(chains) - {chain} else old(chains)
      ensures order == Surviving(old(order), chains)
    {
      hide WellFormed, Distinct, Referenced;
      ok := chain in chains && chain !in builtin && chains[chain] == [] && !Referenced(chains, chain);
      if ok {
        UnreferencedGoes(builtin, chains, chain);
        chains := chains - {chain};
        order := Surviving(order, chains);
        SurvivingLists(old(order), chains);
      } else {
        AllSurvive(order, chains);
      }
    }
  }

  /** The jump lines whose deletion removed something. */
  function DeletedLines(cs: Chains, lines: seq<string>): seq<Removed> {
    if lines == [] then []
    else
      var after := AfterDelete(cs, DeletionArgs(lines[0]));
      (if after != cs then [JumpRemoved(lines[0])] else []) + DeletedLines(after, lines[1..])
  }

  function Deleted(fs: seq<string>): seq<Removed> { seq(|fs|, i requires 0 <= i < |fs| => ChainDeleted(fs[i])) }

  /** The report of one table: the jumps that went, then every foreign chain of the dump. */
  function Report(order: seq<string>, builtin: set<string>, cs: Chains): seq<Removed> {
    var dump := Dump(order, builtin, cs);
    DeletedLines(cs, JumpLines(dump)) + Deleted(ForeignChainsIn(dump))
  }

  ghost function Reports(tables: seq<IpTable>): seq<Removed>
    reads tables
  {
    if tables == [] then []
    else Report(tables[0].order, tables[0].builtin, tables[0].chains) + Reports(tables[1..])
  }

  lemma {:induction false} AfterDropsConcat(cs: Chains, builtin: set<string>, a: seq<string>, f: string)
    decreases a
    ensures AfterDrops(cs, builtin, a + [f]) == AfterDrop(AfterDrops(cs, builtin, a), builtin, f)
  {
    hide AfterDrop;
    if a == [] {
      assert a + [f] == [f];
    } else {
      assert (a + [f])[1..] == a[1..] + [f];
      AfterDropsConcat(AfterDrop(cs, builtin, a[0]), builtin, a[1..], f);
    }
  }

  lemma {:induction false} DeletedLinesConcat(cs: Chains, a: seq<string>, line: string)
    decreases a
    ensures DeletedLines(cs, a + [line]) ==
            DeletedLines(cs, a) + (if AfterDelete(AfterDeletes(cs, a), DeletionArgs(line)) != AfterDeletes(cs, a)
                                   then [JumpRemoved(line)] else [])
  {
    hide AfterDelete, DeletionArgs;
    if a == [] {
      assert a + [line] == [line] && [line][1..] == [];
      assert DeletedLines(AfterDelete(cs, DeletionArgs(line)), []) == [];
    } else {
      assert (a + [line])[1..] == a[1..] + [line];
      DeletedLinesConcat(AfterDelete(cs, DeletionArgs(a[0])), a[1..], line);
    }
  }

  /** The body of the table loop of `clean_foreign_shellcrash`. The report names every foreign
      chain of the dump, whether or not `-X` was refused. */
  method CleanTable(t: IpTable) returns (removed: seq<Removed>)
    requires t.Valid()
    modifies t
    ensures t.Valid() && t.order == Surviving(old(t.order), t.chains)
    ensures t.chains == Cleaned(old(t.order), t.builtin, old(t.chains))
    ensures IsClean(t.chains) <==> !Stuck(old(t.order), old(t.chains))
    ensures removed == Report(old(t.order), t.builtin, old(t.chains))
  {
    hide AfterDelete, AfterDeletes, AfterDrops, DeletionArgs, JumpLines, ForeignChainsIn, DeletedLines, Dump;
    hide TableOk, Stuck, IsClean;
    var dump := Dump(t.order, t.builtin, t.chains);
    CleanExactlyWhenNotStuck(t.order, t.builtin, t.chains);
    var jumps := JumpLines(dump);
    removed := DeleteJumps(t, jumps);
    var foreign := ForeignChainsIn(dump);
    var dropped := DropChains(t, foreign);
    removed := removed + dropped;
  }

  /** The jump loop. */
  method DeleteJumps(t: IpTable, jumps: seq<string>) returns (removed: seq<Removed>)
    requires t.Valid()
    modifies t`chains
    ensures t.Valid() && t.chains == AfterDeletes(old(t.chains), jumps)
    ensures removed == DeletedLines(old(t.chains), jumps)
  {
    hide AfterDelete, AfterDeletes, DeletionArgs, DeletedLines, TableOk;
    ghost var before := t.chains;
    removed := [];
    assert jumps[..0] == [];
    NothingDeleted(before);
    for i := 0 to |jumps|
      invariant t.Valid()
      invariant t.chains == AfterDeletes(before, jumps[..i])
      invariant removed == DeletedLines(before, jumps[..i])
    {
      assert jumps[..i + 1] == jumps[..i] + [jumps[i]];
      AfterDeletesSnoc(before, jumps[..i], jumps[i]);
      DeletedLinesConcat(before, jumps[..i], jumps[i]);
      var ok := t.Delete(DeletionArgs(jumps[i]));
      if ok { removed := removed + [JumpRemoved(jumps[i])]; }
    }
    assert jumps[..|jumps|] == jumps;
  }

  /** The chain loop. */
  method DropChains(t: IpTable, foreign: seq<string>) returns (removed: seq<Removed>)
    requires t.Valid()
    modifies t
    ensures t.Valid() && t.order == Surviving(old(t.order), t.chains)
    ensures t.chains == AfterDrops(old(t.chains), t.builtin, foreign)
    ensures removed == Deleted(foreign)
  {
    hide AfterDrop, TableOk, Surviving;
    ghost var before, order := t.chains, t.order;
    removed := [];
    assert foreign[..0] == [];
    ListedSurvive(t.order, t.builtin, t.chains);
    for i := 0 to |foreign|
      invariant t.Valid() && t.order == Surviving(order, t.chains)
      invariant t.chains == AfterDrops(before, t.builtin, foreign[..i])
      invariant removed == Deleted(foreign[..i])
    {
      assert foreign[..i + 1] == foreign[..i] + [foreign[i]];
      AfterDropsConcat(before, t.builtin, foreign[..i], foreign[i]);
      ghost var cs := t.chains;
      t.Flush(foreign[i]);
      var _ := t.DeleteChain(foreign[i]);
      DropIs(cs, t.builtin, foreign[i], t.chains);
      SurvivingTwice(order, cs, t.chains);
      removed := removed + [ChainDeleted(foreign[i])];
    }
    assert foreign[..|foreign|] == foreign;
  }

  lemma ListedSurvive(order: seq<string>, builtin: set<string>, cs: Chains)
    requires TableOk(order, builtin, cs)
    ensures Surviving(order, cs) == order
  {
    hide WellFormed, Distinct;
    AllSurvive(order, cs);
  }

  /** Flushing and then deleting as far as `-X` allows is the drop. */
  lemma DropIs(cs: Chains, builtin: set<string>, chain: string, after: Chains)
    requires var flushed := if chain in cs then cs[chain := []] else cs;
             after == if chain in flushed && chain !in builtin && flushed[chain] == [] && !Referenced(flushed, chain)
                      then flushed - {chain} else flushed
    ensures after == AfterDrop(cs, builtin, chain) && forall c :: c in after ==> c in cs
  {
  }

  lemma NothingDeleted(cs: Chains)
    ensures AfterDeletes(cs, []) == cs && DeletedLines(cs, []) == []
  {
  }

  lemma AfterDeletesSnoc(cs: Chains, a: seq<string>, line: string)
    ensures AfterDeletes(cs, a + [line]) == AfterDelete(AfterDeletes(cs, a), DeletionArgs(line))
  {
    hide AfterDelete, DeletionArgs;
    AfterDeletesConcat(cs, a, [line]);
    assert [line][1..] == [];
  }

  /** The two outer loops: every listed table of every tool is cleaned on its own. */
  method CleanForeign(tables: seq<IpTable>) returns (removed: seq<Removed>)
    requires Distinct(tables) && forall t :: t in tables ==> t.Valid()
    modifies tables
    ensures forall t :: t in tables ==> t.Valid() && t.order == Surviving(old(t.order), t.chains)
    ensures forall t :: t in tables ==> t.chains == Cleaned(old(t.order), t.builtin, old(t.chains))
    ensures forall t :: t in tables ==> (IsClean(t.chains) <==> !Stuck(old(t.order), old(t.chains)))
    ensures removed == old(Reports(tables))
  {
    hide Cleaned, IsClean, Stuck, TableOk, Report, Surviving;
    removed := [];
    assert tables[0..] == tables;
    for i := 0 to |tables|
      invariant forall k :: i <= k < |tables| ==>
                  tables[k].chains == old(tables[k].chains) && tables[k].order == old(tables[k].order)
      invariant forall k :: 0 <= k < |tables| ==> tables[k].Valid()
      invariant forall k :: 0 <= k < i ==> CleanedFrom(tables[k], old(tables[k].order), old(tables[k].chains))
      invariant removed + old(Reports(tables[i..])) == old(Reports(tables))
    {
      assert tables[i..][0] == tables[i] && tables[i..][1..] == tables[i + 1..];
      var lines := CleanTable(tables[i]);
      removed := removed + lines;
    }
    assert removed + [] == removed;
  }

  /** The table is what cleaning these chains in this order leaves. */
  ghost predicate CleanedFrom(t: IpTable, order: seq<string>, cs: Chains)
    reads t
  {
    && t.order == Surviving(order, t.chains) && t.chains == Cleaned(order, t.builtin, cs)
    && (IsClean(t.chains) <==> !Stuck(order, cs))
  }

  /** Cleaning on two occasions: every table then is clean if and only if no ordinary chain of it
      held an unremovable reference, and the second occasion changes nothing in a table the first
      one left clean. */
  method CleanOnTwoOccasions(tables: seq<IpTable>) returns (first: seq<Removed>, second: seq<Removed>)
    requires Distinct(tables) && forall t :: t in tables ==> t.Valid()
    modifies tables
    ensures first == old(Reports(tables))
    ensures forall t :: t in tables ==> t.Valid() && (IsClean(t.chains) <==> !Held(old(t.chains)))
    ensures forall t :: t in tables && !Stuck(old(t.order), old(t.chains)) ==>
              t.chains == Cleaned(old(t.order), t.builtin, old(t.chains))
    ensures forall t, c :: t in tables && c in old(t.chains) && !IsForeign(c) ==>
              c in t.chains && t.chains[c] == Kept(c, old(t.chains)[c])
  {
    hide Cleaned, IsClean, Stuck, Held, Kept, IsForeign, TableOk, Surviving, Report, Reports;
    first := CleanForeign(tables);
    label Once:
    second := CleanForeign(tables);
    forall t | t in tables
      ensures IsClean(t.chains) <==> !Held(old(t.chains))
      ensures !Stuck(old(t.order), old(t.chains)) ==> t.chains == old@Once(t.chains)
      ensures forall c :: c in old(t.chains) && !IsForeign(c) ==>
                c in t.chains && t.chains[c] == Kept(c, old(t.chains)[c])
    {
      CleanAgain(old(t.order), t.builtin, old(t.chains));
    }
  }

  lemma CleanAgain(order: seq<string>, builtin: set<string>, cs: Chains)
    requires TableOk(order, builtin, cs)
    ensures var once := Cleaned(order, builtin, cs);
            var twice := Cleaned(Surviving(order, once), builtin, once);
            && (IsClean(twice) <==> !Held(cs)) && (!Stuck(order, cs) ==> twice == once)
            && forall c :: c in cs && !IsForeign(c) ==> c in twice && twice[c] == Kept(c, cs[c])
  {
    hide Cleaned, IsClean, Stuck, Held, Kept, IsForeign, WellFormed, Surviving;
    var once := Cleaned(order, builtin, cs);
    SurvivingLists(order, once);
    CleanExactlyWhenNotStuck(order, builtin, cs);
    SecondClean(order, builtin, cs, Surviving(order, once));
  }
}
