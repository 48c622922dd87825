/** The pid-file supervisor (core/src/service.rs): start, stop, restart and the watchdog, over
    processes that crash on their own. Pids are never reused, signals are permitted and pid
    files are written when a process is spawned. */
module Service {
  import opened Common

  /** One pid file per external kernel and one for the integrated engine. */
  datatype Slot = Mihomo | SingBox | Engine

  /** `child.id()` is None for a child that was already reaped. */
  datatype Spawn = SpawnFails | AlreadyGone | Running

  /** What a start meets on the way: the binary, the configuration, the spawn. */
  datatype Conditions = Conditions(installed: bool, configOk: bool, spawn: Spawn)

  /** The run directory and the process table; `owner` remembers what the manager ever spawned. */
  datatype World = World(pids: map<Slot, nat>, startTime: bool, live: set<nat>, owner: map<nat, Slot>, nextPid: nat)

  const EMPTY: World := World(map[], false, {}, map[], 1)

  predicate IsRunning(w: World, slot: Slot) { slot in w.pids && w.pids[slot] in w.live }

  /** `start_inner` and `start_engine`. */
  function Started(w: World, slot: Slot, c: Conditions): (World, Result<nat>) {
    if !c.installed then (w, Err)
    else if IsRunning(w, slot) then (w, Ok(w.pids[slot]))
    else if !c.configOk || c.spawn == SpawnFails then (w, Err)
    else if c.spawn == AlreadyGone then (w, Ok(0))
    else
      var pid := w.nextPid;
      (World(w.pids[slot := pid], true, w.live + {pid}, w.owner[pid := slot], pid + 1), Ok(pid))
  }

  /** Terminating the recorded process of one slot and removing its file. */
  function SlotStopped(w: World, slot: Slot): World {
    w.(live := if slot in w.pids then w.live - {w.pids[slot]} else w.live, pids := w.pids - {slot})
  }

  /** `stop_inner`: both kernels, then the engine, then the start-time file. */
  function Stopped(w: World): World {
    SlotStopped(SlotStopped(SlotStopped(w, Mihomo), SingBox), Engine).(startTime := false)
  }

  datatype Command =
    | Start(slot: Slot, c: Conditions) | Stop | Restart(slot: Slot, c: Conditions) | Watchdog(slot: Slot, c: Conditions)
    | Crash(pid: nat) | OtherProgramStarts

  function Step(w: World, cmd: Command): World {
    match cmd
    case Start(slot, c) => Started(w, slot, c).0
    case Stop => Stopped(w)
    case Restart(slot, c) => Started(Stopped(w), slot, c).0
    case Watchdog(slot, c) => if IsRunning(w, slot) then w else Started(w, slot, c).0
    case Crash(pid) => w.(live := w.live - {pid})
    case OtherProgramStarts => w.(live := w.live + {w.nextPid}, nextPid := w.nextPid + 1)
  }

  function Run(w: World, cmds: seq<Command>): World {
    if cmds == [] then w else Step(Run(w, cmds[..|cmds| - 1]), cmds[|cmds| - 1])
  }

  // ---------------------------------------------------------------- the invariant of every run

  ghost predicate Supervised(w: World) {
    // a pid file names a process the manager spawned for that slot
    && (forall s :: s in w.pids ==> w.pids[s] in w.owner && w.owner[w.pids[s]] == s)
    // a live process of the manager is named by the pid file of its slot
    && (forall p :: p in w.owner && p in w.live ==> w.owner[p] in w.pids && w.pids[w.owner[p]] == p)
    // pids still to come are new
    && (forall p :: p in w.owner || p in w.live ==> p < w.nextPid)
  }

  lemma StartedKeeps(w: World, slot: Slot, c: Conditions)
    requires Supervised(w)
    ensures Supervised(Started(w, slot, c).0)
  {
  }

  lemma SlotStoppedKeeps(w: World, slot: Slot)
    requires Supervised(w)
    ensures Supervised(SlotStopped(w, slot))
    ensures forall p :: p in w.owner && w.owner[p] == slot ==> p !in SlotStopped(w, slot).live
  {
  }

  /** After a stop no process of the manager is alive and nothing is recorded. */
  lemma StopLeavesNothing(w: World)
    requires Supervised(w)
    ensures var w' := Stopped(w);
            && Supervised(w') && w'.pids == map[] && !w'.startTime && w'.owner == w.owner
            && (forall p :: p in w'.owner ==> p !in w'.live)
            && (forall p :: p in w.live && p !in w.owner ==> p in w'.live)
  {
    var w1 := SlotStopped(w, Mihomo);
    var w2 := SlotStopped(w1, SingBox);
    SlotStoppedKeeps(w, Mihomo);
    SlotStoppedKeeps(w1, SingBox);
    SlotStoppedKeeps(w2, Engine);
    assert forall s: Slot :: s !in Stopped(w).pids;
  }

  lemma StepKeeps(w: World, cmd: Command)
    requires Supervised(w)
    ensures Supervised(Step(w, cmd))
  {
    hide Started, Stopped;
    match cmd
    case Start(slot, c) => StartedKeeps(w, slot, c);
    case Stop => StopLeavesNothing(w);
    case Restart(slot, c) =>
      StopLeavesNothing(w);
      StartedKeeps(Stopped(w), slot, c);
    case Watchdog(slot, c) => StartedKeeps(w, slot, c);
    case Crash(_) =>
    case OtherProgramStarts =>
  }

  lemma {:induction false} EveryRunIsSupervised(cmds: seq<Command>)
    ensures Supervised(Run(EMPTY, cmds))
  {
    if cmds != [] {
      EveryRunIsSupervised(cmds[..|cmds| - 1]);
      StepKeeps(Run(EMPTY, cmds[..|cmds| - 1]), cmds[|cmds| - 1]);
    }
  }

  /** In every run, two live processes of one slot are the same process and its pid file names it. */
  lemma AtMostOnePerSlot(cmds: seq<Command>, p: nat, q: nat)
    requires var w := Run(EMPTY, cmds);
             p in w.owner && q in w.owner && w.owner[p] == w.owner[q] && p in w.live && q in w.live
    ensures p == q && var w := Run(EMPTY, cmds); IsRunning(w, w.owner[p]) && w.pids[w.owner[p]] == p
  {
    EveryRunIsSupervised(cmds);
  }

  /** Whatever ran before, a stop ends every process of the manager and clears every file; other
      programs are untouched. */
  lemma StopEndsEverything(cmds: seq<Command>)
    ensures var before, after := Run(EMPTY, cmds), Run(EMPTY, cmds + [Stop]);
            && after.pids == map[] && !after.startTime
            && (forall p :: p in after.owner ==> p !in after.live)
            && (forall p :: p in before.live && p !in before.owner ==> p in after.live)
  {
    var script := cmds + [Stop];
    assert script[..|script| - 1] == cmds;
    EveryRunIsSupervised(cmds);
    StopLeavesNothing(Run(EMPTY, cmds));
  }

  /** A successful restart leaves the selected slot as the manager's only live process. */
  lemma RestartLeavesExactlyOne(w: World, slot: Slot, c: Conditions)
    requires Supervised(w) && c == Conditions(true, true, Running)
    ensures var w' := Step(w, Restart(slot, c));
            IsRunning(w', slot) && forall p :: p in w'.owner && p in w'.live ==> p == w'.pids[slot]
  {
    hide Stopped;
    StopLeavesNothing(w);
  }

  /** Starting a running slot again, or a watchdog tick over it, changes nothing and reports the same pid. */
  lemma StartIsIdempotent(w: World, slot: Slot, c: Conditions, again: Conditions)
    requires Supervised(w) && Started(w, slot, c).1.Ok? && IsRunning(Started(w, slot, c).0, slot) && again.installed
    ensures var (w', pid) := Started(w, slot, c);
            Started(w', slot, again) == (w', pid) && Step(w', Watchdog(slot, again)) == w'
  {
  }

  // ---------------------------------------------------------------- what a start achieves

  const GOOD: Conditions := Conditions(true, true, Running)

  /** Everything but this slot is as it was: the other pid files and the other processes. */
  ghost predicate OthersUntouched(w: World, w': World, slot: Slot) {
    && (forall s :: s != slot ==> (s in w'.pids <==> s in w.pids) && (s in w.pids ==> w'.pids[s] == w.pids[s]))
    && (forall p :: p in w.live ==> p in w'.live)
    && (forall p :: p in w'.live && p !in w.live ==> slot in w'.pids && p == w'.pids[slot])
  }

  /** From every supervised world, with a stale pid file or without, a start under good conditions
      ends with the slot running and recorded, and reports its pid: the process that was running, or
      a new one. */
  lemma StartWorks(w: World, slot: Slot)
    requires Supervised(w)
    ensures var (w', r) := Started(w, slot, GOOD);
            && slot in w'.pids && w'.pids[slot] in w'.live && r == Ok(w'.pids[slot])
            && OthersUntouched(w, w', slot)
            && (if slot in w.pids && w.pids[slot] in w.live then w' == w
                else w'.pids[slot] !in w.live && w'.pids[slot] !in w.owner && w'.startTime)
  {
  }

  /** A start fails exactly when the kernel is not installed, or has to be spawned and cannot be; a
      failed start changes nothing, nor does one whose child is gone before it can be recorded. */
  lemma StartFailsExactly(w: World, slot: Slot, c: Conditions)
    ensures var (w', r) := Started(w, slot, c);
            var running := slot in w.pids && w.pids[slot] in w.live;
            && (r.Err? <==> !c.installed || (!running && (!c.configOk || c.spawn == SpawnFails)))
            && (r.Err? || c.spawn == AlreadyGone || running ==> w' == w)
            && (r.Ok? && running ==> r.value == w.pids[slot])
  {
  }

  /** From every supervised world a watchdog tick under good conditions ends with the slot running,
      leaves a running slot and all other slots alone, and reaches what a start reaches. */
  lemma WatchdogWorks(w: World, slot: Slot)
    requires Supervised(w)
    ensures var w' := Step(w, Watchdog(slot, GOOD));
            && w' == Started(w, slot, GOOD).0 && slot in w'.pids && w'.pids[slot] in w'.live
            && OthersUntouched(w, w', slot)
            && (slot in w.pids && w.pids[slot] in w.live ==> w' == w)
  {
    StartWorks(w, slot);
  }

  /** Whatever ran before, a kernel that crashed is back after the next tick: exactly one process of
      the slot is alive, it is a new one, and the pid file names it. */
  lemma CrashedKernelComesBack(cmds: seq<Command>, slot: Slot, pid: nat)
    requires var w := Run(EMPTY, cmds); slot in w.pids && w.pids[slot] == pid
    ensures var before, w := Run(EMPTY, cmds), Run(EMPTY, cmds + [Crash(pid), Watchdog(slot, GOOD)]);
            && slot in w.pids && w.pids[slot] in w.live && w.pids[slot] !in before.owner
            && w.pids[slot] in w.owner && w.owner[w.pids[slot]] == slot
            && (forall p :: p in w.owner && w.owner[p] == slot && p in w.live ==> p == w.pids[slot])
            && (forall s :: s != slot && s in before.pids ==> s in w.pids && w.pids[s] == before.pids[s])
  {
    hide Started, Run;
    var before, crashed := Run(EMPTY, cmds), Run(EMPTY, cmds + [Crash(pid)]);
    EveryRunIsSupervised(cmds);
    RunNext(cmds, Crash(pid));
    RunNext(cmds + [Crash(pid)], Watchdog(slot, GOOD));
    assert cmds + [Crash(pid)] + [Watchdog(slot, GOOD)] == cmds + [Crash(pid), Watchdog(slot, GOOD)];
    StepKeeps(before, Crash(pid));
    StartWorks(crashed, slot);
    StepKeeps(crashed, Watchdog(slot, GOOD));
  }

  lemma RunNext(cmds: seq<Command>, cmd: Command)
    ensures Run(EMPTY, cmds + [cmd]) == Step(Run(EMPTY, cmds), cmd)
  {
    assert (cmds + [cmd])[..|cmds|] == cmds;
  }

  // ---------------------------------------------------------------- the manager object

  class ServiceManager {
    var pids: map<Slot, nat>
    var startTime: bool
    var live: set<nat>
    var owner: map<nat, Slot>
    var nextPid: nat

    ghost function View(): World
      reads this
    {
      World(pids, startTime, live, owner, nextPid)
    }

    constructor ()
      ensures View() == EMPTY
    {
      pids, startTime, live, owner, nextPid := map[], false, {}, map[], 1;
    }

    method StartSlot(slot: Slot, c: Conditions) returns (r: Result<nat>)
      modifies this
      ensures (View(), r) == Started(old(View()), slot, c)
    {
      if !c.installed { return Err; }
      if slot in pids {
        if pids[slot] in live { return Ok(pids[slot]); }
      }
      if !c.configOk { return Err; }
      match c.spawn
      case SpawnFails => return Err;
      case AlreadyGone => return Ok(0);
      case Running =>
        var pid := nextPid;
        live, owner, nextPid := live + {pid}, owner[pid := slot], pid + 1;
        pids := pids[slot := pid];
        startTime := true;
        return Ok(pid);
    }

    /** SIGTERM, a bounded wait in which the process may exit, then SIGKILL. */
    method Terminate(pid: nat, polls: seq<bool>)
      modifies this`live
      ensures live == old(live) - {pid}
    {
      var i := 0;
      while i < |polls| && pid in live
        invariant i <= |polls| && (live == old(live) || live == old(live) - {pid})
      {
        if polls[i] { live := live - {pid}; }
        i := i + 1;
      }
      if pid in live { live := live - {pid}; }
    }

    /** `stop_inner`, with what each wait observes. */
    method StopAll(polls: Slot -> seq<bool>)
      modifies this
      ensures View() == Stopped(old(View()))
    {
      var slots := [Mihomo, SingBox, Engine];
      ghost var w := View();
      ghost var worlds := [w, SlotStopped(w, Mihomo), SlotStopped(SlotStopped(w, Mihomo), SingBox),
                           SlotStopped(SlotStopped(SlotStopped(w, Mihomo), SingBox), Engine)];
      for i := 0 to 3
        invariant View() == worlds[i]
      {
        if slots[i] in pids { Terminate(pids[slots[i]], polls(slots[i])); }
        pids := pids - {slots[i]};
        assert View() == SlotStopped(worlds[i], slots[i]);
      }
      startTime := false;
    }

    /** `restart_selection`. */
    method RestartSlot(slot: Slot, c: Conditions, polls: Slot -> seq<bool>) returns (r: Result<nat>)
      modifies this
      ensures View() == Step(old(View()), Restart(slot, c)) && r == Started(Stopped(old(View())), slot, c).1
    {
      StopAll(polls);
      r := StartSlot(slot, c);
    }

    /** One turn of the watchdog loop. */
    method WatchdogTick(slot: Slot, c: Conditions)
      modifies this
      ensures View() == Step(old(View()), Watchdog(slot, c))
    {
      if !(slot in pids && pids[slot] in live) { var _ := StartSlot(slot, c); }
    }
  }
}
