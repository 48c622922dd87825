/** The interval-gated refresh of rule providers (core/src/rules.rs): which providers are due,
    what one run reports and records, and what every sequence of runs keeps. */
module Refresh {
  import opened Common

  datatype Provider = Provider(name: string, interval: nat)

  /** The sidecar state file: the time of the last successful download, by provider name. */
  type Recorded = map<string, int>

  /** How one download task ended; tasks finish in any order. */
  datatype Completion = Stored(p: Provider) | Failed(p: Provider) | Panicked(p: Provider)

  datatype Failure = ProviderFailed(name: string) | TaskFailed | StateFailed

  datatype Report = Report(updated: seq<string>, failed: seq<Failure>, skipped: seq<string>)

  /** `interval.max(1) as i64`: the cast wraps for intervals of 2^63 seconds and more. */
  function Effective(p: Provider): int {
    var n := if p.interval < 1 then 1 else p.interval % U64;
    if n < U64 / 2 then n else n - U64
  }

  predicate IsDue(state: Recorded, p: Provider, now: int) {
    p.name in state ==> now - state[p.name] >= Effective(p)
  }

  /** `due_providers`. */
  function Due(state: Recorded, ps: seq<Provider>, now: int): seq<Provider> {
    if ps == [] then [] else (if IsDue(state, ps[0], now) then [ps[0]] else []) + Due(state, ps[1..], now)
  }

  function NotDue(state: Recorded, ps: seq<Provider>, now: int): seq<Provider> {
    if ps == [] then [] else (if IsDue(state, ps[0], now) then [] else [ps[0]]) + NotDue(state, ps[1..], now)
  }

  predicate NameIn(ps: seq<Provider>, name: string) { exists i :: 0 <= i < |ps| && ps[i].name == name }

  /** The names reported as skipped: no due provider has the name. */
  function Skipped(ps: seq<Provider>, due: seq<Provider>): seq<string> {
    if ps == [] then [] else (if NameIn(due, ps[0].name) then [] else [ps[0].name]) + Skipped(ps[1..], due)
  }

  function Providers(cs: seq<Completion>): seq<Provider> {
    if cs == [] then [] else [cs[0].p] + Providers(cs[1..])
  }

  function Names(ps: seq<Provider>): seq<string> { if ps == [] then [] else [ps[0].name] + Names(ps[1..]) }

  function Updated(cs: seq<Completion>): seq<string> {
    if cs == [] then [] else (if cs[0].Stored? then [cs[0].p.name] else []) + Updated(cs[1..])
  }

  function FailedNames(cs: seq<Completion>): seq<string> {
    if cs == [] then [] else (if cs[0].Failed? then [cs[0].p.name] else []) + FailedNames(cs[1..])
  }

  function PanickedNames(cs: seq<Completion>): seq<string> {
    if cs == [] then [] else (if cs[0].Panicked? then [cs[0].p.name] else []) + PanickedNames(cs[1..])
  }

  function Panics(cs: seq<Completion>): seq<Failure> {
    if cs == [] then [] else (if cs[0].Panicked? then [TaskFailed] else []) + Panics(cs[1..])
  }

  function Failures(cs: seq<Completion>): seq<Failure> {
    if cs == [] then [] else (if cs[0].Failed? then [ProviderFailed(cs[0].p.name)] else []) + Failures(cs[1..])
  }

  /** The state with every stored download stamped. */
  function Stamped(state: Recorded, cs: seq<Completion>, now: int): Recorded
    decreases |cs|
  {
    if cs == [] then state
    else Stamped(if cs[0].Stored? then state[cs[0].p.name := now] else state, cs[1..], now)
  }

  /** One run: the configured providers, the clock, how the downloads end, whether the save works. */
  datatype Input = Input(ps: seq<Provider>, now: int, completions: seq<Completion>, saveOk: bool)

  /** The tasks spawned are exactly the due providers. */
  ghost predicate InputOk(state: Recorded, run: Input) {
    multiset(Providers(run.completions)) == multiset(Due(state, run.ps, run.now))
  }

  predicate Saves(run: Input) { Updated(run.completions) != [] && run.saveOk }

  function AfterRun(state: Recorded, run: Input): Recorded {
    if Saves(run) then Stamped(state, run.completions, run.now) else state
  }

  class RuleProviderManager {
    var state: Recorded

    constructor ()
      ensures state == map[]
    {
      state := map[];
    }

    /** `update_due`: the due providers are downloaded by tasks; panics are seen while joining them,
        the other outcomes in the loop after it. */
    method UpdateDue(ps: seq<Provider>, now: int, tasks: Tasks, saveOk: bool) returns (report: Report)
      modifies this
      ensures var run := Input(ps, now, Finished(tasks, 0, Due(old(state), ps, now)), saveOk);
              && InputOk(old(state), run) && state == AfterRun(old(state), run)
              && report.updated == Updated(run.completions)
              && report.skipped == Skipped(ps, Due(old(state), ps, now))
              && report.failed == Panics(run.completions) + Failures(run.completions)
                                  + (if report.updated != [] && !saveOk then [StateFailed] else [])
    {
      hide Finished, Due, Skipped, Joined, Panics, Providers, Updated, Failures, Stamped;
      var due := Due(state, ps, now);
      var skipped := Skipped(ps, due);
      ghost var cs := Finished(tasks, 0, due);
      FinishedAreSpawned(tasks, 0, due);
      var results, failed := JoinAll(tasks, due);
      JoinedSame(state, cs, now);
      var updated, failures, loaded := Record(state, results, now);
      failed := failed + failures;
      if updated != [] {
        if saveOk { state := loaded; } else { failed := failed + [StateFailed]; }
      }
      report := Report(updated, failed, skipped);
    }
  }

  /** The loop over the joined results: stored downloads are stamped, failures reported. */
  method Record(state: Recorded, results: seq<Completion>, now: int)
    returns (updated: seq<string>, failures: seq<Failure>, loaded: Recorded)
    ensures updated == Updated(results) && failures == Failures(results) && loaded == Stamped(state, results, now)
  {
    updated, failures, loaded := [], [], state;
    assert results[0..] == results;
    for i := 0 to |results|
      invariant updated + Updated(results[i..]) == Updated(results)
      invariant failures + Failures(results[i..]) == Failures(results)
      invariant Stamped(loaded, results[i..], now) == Stamped(state, results, now)
    {
      assert results[i..][0] == results[i] && results[i..][1..] == results[i + 1..];
      match results[i]
      case Stored(p) =>
        loaded := loaded[p.name := now];
        updated := updated + [p.name];
      case Failed(p) => failures := failures + [ProviderFailed(p.name)];
      case Panicked(_) =>
    }
    assert updated + [] == updated && failures + [] == failures;
  }

  /** The join loop: tasks are collected in the order they finish, panics go to the report. */
  method JoinAll(tasks: Tasks, due: seq<Provider>) returns (results: seq<Completion>, failed: seq<Failure>)
    ensures results == Joined(Finished(tasks, 0, due)) && failed == Panics(Finished(tasks, 0, due))
  {
    hide Finished;
    ghost var cs := Finished(tasks, 0, due);
    assert [] + Joined(cs) == Joined(cs) && [] + Panics(cs) == Panics(cs);
    var pending, turn := due, 0;
    results, failed := [], [];
    while pending != []
      invariant results + Joined(Finished(tasks, turn, pending)) == Joined(cs)
      invariant failed + Panics(Finished(tasks, turn, pending)) == Panics(cs)
      decreases |pending|
    {
      var k := tasks.next(turn, pending) % |pending|;
      var c := tasks.ends(turn, pending[k]).Of(pending[k]);
      var rest := pending[..k] + pending[k + 1..];
      ghost var later := Finished(tasks, turn + 1, rest);
      assert Finished(tasks, turn, pending) == [c] + later by { FinishedFirst(tasks, turn, pending); }
      assert ([c] + later)[1..] == later;
      if c.Panicked? { failed := failed + [TaskFailed]; } else { results := results + [c]; }
      pending, turn := rest, turn + 1;
    }
    NoneFinished(tasks, turn);
    assert results + [] == results && failed + [] == failed;
  }

  lemma FinishedFirst(tasks: Tasks, turn: nat, pending: seq<Provider>)
    requires pending != []
    ensures var k := tasks.next(turn, pending) % |pending|;
            Finished(tasks, turn, pending) ==
            [tasks.ends(turn, pending[k]).Of(pending[k])] + Finished(tasks, turn + 1, pending[..k] + pending[k + 1..])
  {
  }

  lemma NoneFinished(tasks: Tasks, turn: nat)
    ensures Finished(tasks, turn, []) == []
  {
  }

  /** How a task ends. */
  datatype Ending = Stores | Fails | Crashes {
    function Of(p: Provider): (c: Completion)
      ensures c.p == p
    {
      match this
      case Stores => Stored(p)
      case Fails => Failed(p)
      case Crashes => Panicked(p)
    }
  }

  /** The surroundings of a run: which pending task finishes next, and how. */
  datatype Tasks = Tasks(next: (nat, seq<Provider>) -> nat, ends: (nat, Provider) -> Ending)

  function Finished(tasks: Tasks, turn: nat, pending: seq<Provider>): seq<Completion>
    decreases |pending|
  {
    if pending == [] then []
    else
      var k := tasks.next(turn, pending) % |pending|;
      [tasks.ends(turn, pending[k]).Of(pending[k])] + Finished(tasks, turn + 1, pending[..k] + pending[k + 1..])
  }

  /** What the join loop passes on. */
  function Joined(cs: seq<Completion>): seq<Completion> {
    if cs == [] then [] else (if cs[0].Panicked? then [] else [cs[0]]) + Joined(cs[1..])
  }

  lemma {:induction false} JoinedSame(state: Recorded, cs: seq<Completion>, now: int)
    ensures Updated(Joined(cs)) == Updated(cs) && Failures(Joined(cs)) == Failures(cs)
    ensures Stamped(state, Joined(cs), now) == Stamped(state, cs, now)
    decreases |cs|
  {
    if cs != [] {
      JoinedSame(if cs[0].Stored? then state[cs[0].p.name := now] else state, cs[1..], now);
      assert ([cs[0]] + Joined(cs[1..]))[1..] == Joined(cs[1..]);
      assert [] + Joined(cs[1..]) == Joined(cs[1..]);
    }
  }

  /** Whatever order the tasks finish in, each due provider finishes exactly once. */
  lemma {:induction false} FinishedAreSpawned(tasks: Tasks, turn: nat, pending: seq<Provider>)
    ensures multiset(Providers(Finished(tasks, turn, pending))) == multiset(pending)
    decreases |pending|
  {
    if pending != [] {
      var k := tasks.next(turn, pending) % |pending|;
      var rest := pending[..k] + pending[k + 1..];
      FinishedAreSpawned(tasks, turn + 1, rest);
      var cs := Finished(tasks, turn, pending);
      assert cs[0].p == pending[k] && cs[1..] == Finished(tasks, turn + 1, rest);
      assert pending == pending[..k] + [pending[k]] + pending[k + 1..];
      assert multiset(pending) == multiset(rest) + multiset{pending[k]};
    }
  }

  // ---------------------------------------------------------------- one run accounts for everyone

  lemma NamesCons(p: Provider, ps: seq<Provider>)
    ensures Names([p] + ps) == [p.name] + Names(ps)
    ensures multiset(Names([p] + ps)) == multiset{p.name} + multiset(Names(ps))
  {
    assert ([p] + ps)[1..] == ps;
  }

  lemma {:induction false} DueOrNot(state: Recorded, ps: seq<Provider>, now: int)
    ensures multiset(Names(Due(state, ps, now))) + multiset(Names(NotDue(state, ps, now))) == multiset(Names(ps))
    ensures |Due(state, ps, now)| + |NotDue(state, ps, now)| == |ps|
  {
    hide IsDue, Names;
    if ps == [] {
      assert Names([]) == [] by { NoNames(); }
    } else {
      DueOrNot(state, ps[1..], now);
      var due, rest := Due(state, ps[1..], now), NotDue(state, ps[1..], now);
      NamesCons(ps[0], due);
      NamesCons(ps[0], rest);
      NamesCons(ps[0], ps[1..]);
      assert ps == [ps[0]] + ps[1..] && [] + due == due && [] + rest == rest;
    }
  }

  lemma {:induction false} OutcomesPartition(cs: seq<Completion>)
    ensures multiset(Updated(cs)) + multiset(FailedNames(cs)) + multiset(PanickedNames(cs))
            == multiset(Names(Providers(cs)))
  {
    if cs != [] { OutcomesPartition(cs[1..]); }
  }

  lemma {:induction false} NamesConcat(a: seq<Provider>, b: seq<Provider>)
    ensures Names(a + b) == Names(a) + Names(b)
  {
    if a == [] {
      assert a + b == b;
    } else {
      assert (a + b)[1..] == a[1..] + b;
      NamesConcat(a[1..], b);
    }
  }

  lemma {:induction false} NamesPermute(a: seq<Provider>, b: seq<Provider>)
    requires multiset(a) == multiset(b)
    ensures multiset(Names(a)) == multiset(Names(b))
  {
    hide Names;
    if a == [] {
      assert |multiset(b)| == 0;
    } else {
      var i := IndexOf(b, a[0]);
      var front, back := b[..i], b[i + 1..];
      assert a == [a[0]] + a[1..] && b == front + ([a[0]] + back);
      assert multiset(a[1..]) == multiset(front + back) by { SamePermutation(a[0], a[1..], front, back); }
      NamesPermute(a[1..], front + back);
      NamesConcat(front, [a[0]] + back);
      NamesConcat(front, back);
      NamesCons(a[0], back);
      NamesCons(a[0], a[1..]);
    }
  }

  lemma IndexOf(b: seq<Provider>, x: Provider) returns (i: nat)
    requires x in multiset(b)
    ensures i < |b| && b[i] == x
  {
    i :| 0 <= i < |b| && b[i] == x;
  }

  lemma SamePermutation(x: Provider, a: seq<Provider>, front: seq<Provider>, back: seq<Provider>)
    requires multiset([x] + a) == multiset(front + ([x] + back))
    ensures multiset(a) == multiset(front + back)
  {
    assert multiset(a) == multiset([x] + a) - multiset([x]);
    assert multiset(front + back) == multiset(front + ([x] + back)) - multiset([x]);
  }

  lemma NoNames()
    ensures Names([]) == []
  {
  }

  /** A due and a not-due provider share a name. */
  ghost predicate NameClash(state: Recorded, ps: seq<Provider>, now: int) {
    exists i :: 0 <= i < |ps| && !IsDue(state, ps[i], now) && NameIn(Due(state, ps, now), ps[i].name)
  }

  lemma {:induction false} DueMembers(state: Recorded, ps: seq<Provider>, now: int)
    ensures forall p :: p in Due(state, ps, now) <==> p in ps && IsDue(state, p, now)
  {
    if ps != [] { DueMembers(state, ps[1..], now); }
  }

  /** No provider of the list that is not due shares its name with a due one. */
  ghost predicate NoClash(state: Recorded, ps: seq<Provider>, due: seq<Provider>, now: int) {
    ps == [] || ((IsDue(state, ps[0], now) || !NameIn(due, ps[0].name)) && NoClash(state, ps[1..], due, now))
  }

  lemma {:induction false} NoClashMeans(state: Recorded, ps: seq<Provider>, due: seq<Provider>, now: int)
    ensures NoClash(state, ps, due, now) <==>
            forall i :: 0 <= i < |ps| && !IsDue(state, ps[i], now) ==> !NameIn(due, ps[i].name)
  {
    hide IsDue, NameIn;
    if ps != [] {
      NoClashMeans(state, ps[1..], due, now);
      assert forall i :: 0 < i < |ps| ==> ps[i] == ps[1..][i - 1];
      assert forall i :: 0 <= i < |ps[1..]| ==> ps[1..][i] == ps[i + 1];
    }
  }

  lemma {:induction false} SkippedAreNotDue(state: Recorded, ps: seq<Provider>, due: seq<Provider>, now: int)
    requires forall p :: p in ps && IsDue(state, p, now) ==> NameIn(due, p.name)
    ensures if NoClash(state, ps, due, now) then Skipped(ps, due) == Names(NotDue(state, ps, now))
            else |Skipped(ps, due)| < |NotDue(state, ps, now)|
    ensures |Skipped(ps, due)| <= |NotDue(state, ps, now)|
  {
    hide IsDue, NameIn;
    if ps != [] {
      SkippedAreNotDue(state, ps[1..], due, now);
      var rest := NotDue(state, ps[1..], now);
      NamesCons(ps[0], rest);
      assert [] + rest == rest;
      NamesLength(rest);
    }
  }

  lemma {:induction false} NamesLength(ps: seq<Provider>)
    ensures |Names(ps)| == |ps|
  {
    if ps != [] { NamesLength(ps[1..]); }
  }

  /** Each run puts every provider into exactly one of updated, failed, panicked and skipped, if and
      only if no due provider shares its name with one that is not due. */
  lemma RunAccountsForEveryone(state: Recorded, run: Input)
    requires InputOk(state, run)
    ensures var skipped := Skipped(run.ps, Due(state, run.ps, run.now));
            var cs := run.completions;
            multiset(Updated(cs)) + multiset(FailedNames(cs)) + multiset(PanickedNames(cs)) + multiset(skipped)
              == multiset(Names(run.ps))
            <==> !NameClash(state, run.ps, run.now)
  {
    hide IsDue, Updated, FailedNames, PanickedNames, Providers, Names, Due, NotDue, Skipped, NoClash;
    var cs, due, notDue := run.completions, Due(state, run.ps, run.now), NotDue(state, run.ps, run.now);
    var skipped := Skipped(run.ps, due);
    OutcomesPartition(cs);
    NamesPermute(Providers(cs), due);
    DueOrNot(state, run.ps, run.now);
    DueMembers(state, run.ps, run.now);
    forall p | p in run.ps && IsDue(state, p, run.now) ensures NameIn(due, p.name) {
      assert p in due;
      var j :| 0 <= j < |due| && due[j] == p;
    }
    SkippedAreNotDue(state, run.ps, due, run.now);
    NoClashMeans(state, run.ps, due, run.now);
    NamesLength(notDue);
    SameOnlyIfSameSize(multiset(Names(due)), multiset(skipped), multiset(Names(notDue)));
  }

  lemma SameOnlyIfSameSize(a: multiset<string>, b: multiset<string>, c: multiset<string>)
    ensures a + b == a + c ==> |b| == |c|
  {
    assert |a + b| == |a| + |b| && |a + c| == |a| + |c|;
  }

  lemma DistinctNamesNeverClash(state: Recorded, ps: seq<Provider>, now: int)
    requires forall i, j :: 0 <= i < j < |ps| ==> ps[i].name != ps[j].name
    ensures !NameClash(state, ps, now)
  {
    DueMembers(state, ps, now);
    forall i | 0 <= i < |ps| && NameIn(Due(state, ps, now), ps[i].name) ensures IsDue(state, ps[i], now) {
      var due := Due(state, ps, now);
      var j :| 0 <= j < |due| && due[j].name == ps[i].name;
      assert due[j] in due;
      var k :| 0 <= k < |ps| && ps[k] == due[j];
      assert k == i;
    }
  }

  // ---------------------------------------------------------------- every sequence of runs

  function StateAfter(runs: seq<Input>): Recorded {
    if runs == [] then map[] else AfterRun(StateAfter(runs[..|runs| - 1]), runs[|runs| - 1])
  }

  /** Each run's tasks are the providers due at the state it loads, and the clock never goes back. */
  ghost predicate RunsOk(runs: seq<Input>) {
    && (forall i :: 0 <= i < |runs| ==> InputOk(StateAfter(runs[..i]), runs[i]))
    && (forall i, j :: 0 <= i < j < |runs| ==> runs[i].now <= runs[j].now)
  }

  /** Run `i` downloaded the provider and the time was saved. */
  predicate Records(runs: seq<Input>, i: nat, name: string)
    requires i < |runs|
  {
    Saves(runs[i]) && name in Updated(runs[i].completions)
  }

  lemma {:induction false} StampedAt(state: Recorded, cs: seq<Completion>, now: int)
    ensures forall name :: name in Updated(cs) ==>
              name in Stamped(state, cs, now) && Stamped(state, cs, now)[name] == now
    ensures forall name :: name in Stamped(state, cs, now) && name !in Updated(cs) ==>
              name in state && Stamped(state, cs, now)[name] == state[name]
    ensures forall name :: name in state ==> name in Stamped(state, cs, now)
    decreases |cs|
  {
    if cs != [] {
      StampedAt(if cs[0].Stored? then state[cs[0].p.name := now] else state, cs[1..], now);
    }
  }

  /** A recorded time is never lost and never goes back. */
  lemma {:induction false} RecordStays(runs: seq<Input>, i: nat, k: nat, name: string)
    requires RunsOk(runs) && i < k <= |runs| && Records(runs, i, name)
    ensures name in StateAfter(runs[..k]) && StateAfter(runs[..k])[name] >= runs[i].now
    decreases k
  {
    var run, before := runs[k - 1], runs[..k - 1];
    assert runs[..k][..k - 1] == before && runs[..k][k - 1] == run;
    StampedAt(StateAfter(before), run.completions, run.now);
    if i < k - 1 { RecordStays(runs, i, k - 1, name); }
  }

  lemma {:induction false} UpdatedByDue(cs: seq<Completion>, name: string)
    requires name in Updated(cs)
    ensures exists p :: p in Providers(cs) && p.name == name
  {
    if !(cs[0].Stored? && cs[0].p.name == name) {
      UpdatedByDue(cs[1..], name);
      var p :| p in Providers(cs[1..]) && p.name == name;
      assert p in Providers(cs);
    } else {
      assert cs[0].p in Providers(cs);
    }
  }

  /** Two recorded downloads of one provider are at least its effective interval apart. */
  lemma DownloadsKeepTheirDistance(runs: seq<Input>, i: nat, j: nat, name: string)
    requires RunsOk(runs) && i < j < |runs| && Records(runs, i, name) && Records(runs, j, name)
    ensures exists p :: p in runs[j].ps && p.name == name && runs[j].now - runs[i].now >= Effective(p)
  {
    var run, state := runs[j], StateAfter(runs[..j]);
    RecordStays(runs, i, j, name);
    UpdatedByDue(run.completions, name);
    var p :| p in Providers(run.completions) && p.name == name;
    assert p in multiset(Providers(run.completions));
    assert p in Due(state, run.ps, run.now);
    DueMembers(state, run.ps, run.now);
  }

  // ---------------------------------------------------------------- who is downloaded when

  /** Seconds that must have passed; an interval of zero counts as one. */
  function Wait(p: Provider): nat { if p.interval == 0 then 1 else p.interval }

  lemma {:induction false} SkippedExactly(ps: seq<Provider>, due: seq<Provider>, name: string)
    ensures name in Skipped(ps, due) <==> name in Names(ps) && !NameIn(due, name)
  {
    if ps != [] { SkippedExactly(ps[1..], due, name); }
  }

  /** Of the providers with an interval below 2^63 seconds, a run downloads exactly those never
      recorded or recorded at least their interval ago; it lists none of them as skipped, and every
      name none of them has. */
  lemma TasksExactly(state: Recorded, run: Input, p: Provider)
    requires InputOk(state, run) && p in run.ps && p.interval < 0x8000_0000_0000_0000
    ensures p in Providers(run.completions) <==> p.name !in state || run.now - state[p.name] >= Wait(p)
    ensures var skipped := Skipped(run.ps, Due(state, run.ps, run.now));
            && (p in Providers(run.completions) ==> p.name !in skipped)
            && ((forall q :: q in Providers(run.completions) ==> q.name != p.name) ==> p.name in skipped)
  {
    hide Due, Skipped, Names, Providers;
    var due := Due(state, run.ps, run.now);
    DueMembers(state, run.ps, run.now);
    assert forall q :: q in Providers(run.completions) <==> q in multiset(Providers(run.completions));
    assert forall q :: q in due <==> q in multiset(due);
    SkippedExactly(run.ps, due, p.name);
    NamedMember(run.ps, p);
    if p in due { var k :| 0 <= k < |due| && due[k] == p; }
    if NameIn(due, p.name) {
      var k :| 0 <= k < |due| && due[k].name == p.name;
      assert due[k] in due;
    }
  }

  lemma {:induction false} NamedMember(ps: seq<Provider>, p: Provider)
    requires p in ps
    ensures p.name in Names(ps)
  {
    if ps[0] != p { NamedMember(ps[1..], p); }
  }

  /** A run records the names it updated at its own time, if it saves, and changes no other record. */
  lemma RecordsExactly(state: Recorded, run: Input, name: string)
    ensures var state' := AfterRun(state, run);
            if run.saveOk && name in Updated(run.completions) then name in state' && state'[name] == run.now
            else (name in state' <==> name in state) && (name in state ==> state'[name] == state[name])
  {
    StampedAt(state, run.completions, run.now);
  }

  /** The latest record before run `j` is the one of run `i`. */
  predicate LastRecorded(runs: seq<Input>, i: nat, j: nat, name: string)
    requires i < j <= |runs|
  {
    Records(runs, i, name) && forall k :: i < k < j ==> !Records(runs, k, name)
  }

  lemma {:induction false} StateTellsLast(runs: seq<Input>, i: nat, j: nat, name: string)
    requires i < j <= |runs| && LastRecorded(runs, i, j, name)
    ensures name in StateAfter(runs[..j]) && StateAfter(runs[..j])[name] == runs[i].now
    decreases j
  {
    hide AfterRun;
    assert runs[..j][..j - 1] == runs[..j - 1] && runs[..j][j - 1] == runs[j - 1];
    RecordsExactly(StateAfter(runs[..j - 1]), runs[j - 1], name);
    if i < j - 1 {
      StateTellsLast(runs, i, j - 1, name);
      assert !Records(runs, j - 1, name);
    }
  }

  lemma {:induction false} StateTellsNever(runs: seq<Input>, j: nat, name: string)
    requires j <= |runs| && forall k :: 0 <= k < j ==> !Records(runs, k, name)
    ensures name !in StateAfter(runs[..j])
    decreases j
  {
    hide AfterRun;
    if j > 0 {
      assert runs[..j][..j - 1] == runs[..j - 1] && runs[..j][j - 1] == runs[j - 1];
      RecordsExactly(StateAfter(runs[..j - 1]), runs[j - 1], name);
      StateTellsNever(runs, j - 1, name);
      assert !Records(runs, j - 1, name);
    }
  }

  /** Over every sequence of runs: a provider last recorded by run `i` is downloaded by run `j` if
      and only if that comes at least its interval later, and is then not listed as skipped. */
  lemma RefreshedExactlyWhenElapsed(runs: seq<Input>, i: nat, j: nat, p: Provider)
    requires RunsOk(runs) && i < j < |runs| && LastRecorded(runs, i, j, p.name)
    requires p in runs[j].ps && p.interval < 0x8000_0000_0000_0000
    ensures p in Providers(runs[j].completions) <==> runs[j].now - runs[i].now >= Wait(p)
    ensures runs[j].now - runs[i].now >= Wait(p) ==>
              p.name !in Skipped(runs[j].ps, Due(StateAfter(runs[..j]), runs[j].ps, runs[j].now))
  {
    hide Providers, Skipped, Due, StateAfter;
    StateTellsLast(runs, i, j, p.name);
    TasksExactly(StateAfter(runs[..j]), runs[j], p);
  }

  /** A provider that no run has recorded is downloaded by the next one. */
  lemma NeverRecordedIsDownloaded(runs: seq<Input>, j: nat, p: Provider)
    requires RunsOk(runs) && j < |runs| && forall k :: 0 <= k < j ==> !Records(runs, k, p.name)
    requires p in runs[j].ps && p.interval < 0x8000_0000_0000_0000
    ensures p in Providers(runs[j].completions)
  {
    hide Providers, Skipped, Due, StateAfter;
    StateTellsNever(runs, j, p.name);
    TasksExactly(StateAfter(runs[..j]), runs[j], p);
  }

  /** The effective interval is the configured one, and positive, up to 2^63 - 1 seconds; beyond
      that it is negative and the provider is due at every tick of the clock. */
  lemma EffectiveExactly(p: Provider)
    requires p.interval < U64
    ensures Effective(p) == p.interval <==> 1 <= p.interval < U64 / 2
    ensures p.interval == 0 ==> Effective(p) == 1
    ensures p.interval >= U64 / 2 ==> Effective(p) < 0
  {
  }

  /** A provider with such an interval is due exactly until its record lies that much in the
      future, hence whenever the record is not in the future. */
  lemma HugeIntervalIsAlwaysDue(state: Recorded, p: Provider, now: int)
    requires U64 / 2 <= p.interval < U64
    ensures IsDue(state, p, now) <==> (p.name in state ==> state[p.name] - now <= U64 - p.interval)
    ensures p.name in state && state[p.name] <= now ==> IsDue(state, p, now)
  {
  }

  /** A provider that was due and whose name was not updated is due at every later time. */
  lemma FailureStaysDue(state: Recorded, run: Input, p: Provider, later: int)
    requires IsDue(state, p, run.now) && p.name !in Updated(run.completions) && run.now <= later
    ensures IsDue(AfterRun(state, run), p, later)
  {
    StampedAt(state, run.completions, run.now);
  }
}
