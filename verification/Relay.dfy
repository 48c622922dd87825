/** The half-close relay (engine/src/app.rs) over two byte-counting streams
    (engine/src/stream.rs). A run is a script of what the two sockets and the grace timer do at
    each await point; a script that ends early is a relay dropped in the middle of an await. */
module Relay {
  import opened Common

  datatype Dir = AToB | BToA

  datatype Event =
    | ReadSome(dir: Dir, chunk: seq<byte>) | ReadEof(dir: Dir) | ReadError(dir: Dir)
    | WriteSome(n: nat) | WriteError | ShutdownReturns | GraceExpires

  const CHUNK: nat := 16384

  /** Where the relay is waiting; `second` tells the grace-bounded loop from the first one. */
  datatype Point =
    | Selecting(second: bool)
    | Writing(dir: Dir, rest: seq<byte>, second: bool)
    | ShuttingDown(dir: Dir, second: bool)
    | Returned(ok: bool)

  /** One direction: what was read at its source, what was written at its sink, whether its
      source reached end of file and whether its sink was shut down. */
  datatype Half = Half(read: seq<byte>, written: seq<byte>, done: bool, shut: bool)

  datatype State = State(at: Point, ab: Half, ba: Half, rx: nat, tx: nat, expired: bool)

  const START: State := State(Selecting(false), Half([], [], false, false), Half([], [], false, false), 0, 0, false)

  function Get(s: State, dir: Dir): Half { if dir == AToB then s.ab else s.ba }

  function Put(s: State, dir: Dir, h: Half): State { if dir == AToB then s.(ab := h) else s.(ba := h) }

  /** Back at the head of a loop: the first loop is left once a direction is done, the second
      returns once both are. */
  function LoopHead(s: State, second: bool): State {
    if s.ab.done && s.ba.done then s.(at := Returned(true))
    else s.(at := Selecting(second || s.ab.done || s.ba.done))
  }

  /** One event; an event the relay is not waiting for changes nothing. */
  function Step(s: State, e: Event): State {
    match s.at
    case Selecting(second) =>
      if (e.ReadSome? || e.ReadEof? || e.ReadError?) && !Get(s, e.dir).done then
        var h := Get(s, e.dir);
        match e
        case ReadSome(dir, chunk) =>
          if 0 < |chunk| <= CHUNK
          then Put(s, dir, h.(read := h.read + chunk)).(at := Writing(dir, chunk, second), rx := (s.rx + |chunk|) % U64)
          else s
        case ReadEof(dir) => Put(s, dir, h.(done := true)).(at := ShuttingDown(dir, second))
        case ReadError(_) => s.(at := Returned(false))
      else if e.GraceExpires? && second then s.(at := Returned(true), expired := true)
      else s
    case Writing(dir, rest, second) =>
      var h := Get(s, dir);
      if e.WriteSome? && e.n <= |rest| then
        var s' := Put(s, dir, h.(written := h.written + rest[..e.n])).(tx := (s.tx + e.n) % U64);
        if e.n == 0 then s'.(at := Returned(false))
        else if e.n == |rest| then LoopHead(s', second)
        else s'.(at := Writing(dir, rest[e.n..], second))
      else if e.WriteError? then s.(at := Returned(false))
      else s
    case ShuttingDown(dir, second) =>
      if e.ShutdownReturns? then LoopHead(Put(s, dir, Get(s, dir).(shut := true)), second) else s
    case Returned(_) => s
  }

  function Run(s: State, script: seq<Event>): State {
    if script == [] then s else Step(Run(s, script[..|script| - 1]), script[|script| - 1])
  }

  // ---------------------------------------------------------------- the invariant of every run

  function InFlight(s: State, dir: Dir): seq<byte> {
    if s.at.Writing? && s.at.dir == dir then s.at.rest else []
  }

  function OneIf(b: bool): nat { if b then 1 else 0 }

  /** What was written plus what is in flight is what was read; an error loses one chunk at most.
      The shared counters wrap at 64 bits. */
  ghost predicate Flow(s: State) {
    && (s.at != Returned(false) ==>
          s.ab.written + InFlight(s, AToB) == s.ab.read && s.ba.written + InFlight(s, BToA) == s.ba.read)
    && s.ab.written <= s.ab.read && s.ba.written <= s.ba.read
    && (s.ab.written == s.ab.read || s.ba.written == s.ba.read)
    && |s.ab.read| + |s.ba.read| <= |s.ab.written| + |s.ba.written| + CHUNK
    && (s.at.Writing? ==> 0 < |s.at.rest| <= CHUNK)
    && s.rx == (|s.ab.read| + |s.ba.read|) % U64
    && s.tx == (|s.ab.written| + |s.ba.written|) % U64
  }

  /** How many directions are done at each point; a sink is shut down only after its source ended. */
  ghost predicate Control(s: State) {
    && (s.ab.shut ==> s.ab.done) && (s.ba.shut ==> s.ba.done)
    && var n := OneIf(s.ab.done) + OneIf(s.ba.done);
       match s.at
       case Selecting(second) => n == OneIf(second) && !s.expired
       case Writing(dir, _, second) => n == OneIf(second) && !Get(s, dir).done && !s.expired
       case ShuttingDown(dir, second) => n == 1 + OneIf(second) && Get(s, dir).done && !Get(s, dir).shut && !s.expired
       case Returned(ok) => ok ==> (n == 2 && !s.expired) || (n == 1 && s.expired)
  }

  ghost predicate Invariant(s: State) { Flow(s) && Control(s) }

  lemma WriteKeepsFlow(s: State, n: nat)
    requires Flow(s) && s.at.Writing? && n <= |s.at.rest|
    ensures Flow(Step(s, WriteSome(n)))
  {
    var dir, rest := s.at.dir, s.at.rest;
    var h := Get(s, dir);
    assert rest == rest[..n] + rest[n..];
    assert h.read == (h.written + rest[..n]) + rest[n..];
    assert n == |rest| ==> rest[..n] == rest;
    AddWraps(|s.ab.written| + |s.ba.written|, n);
  }

  lemma AddWraps(total: nat, n: nat)
    ensures (total % U64 + n) % U64 == (total + n) % U64
  {
  }

  lemma ReadKeepsFlow(s: State, dir: Dir, chunk: seq<byte>)
    requires Flow(s) && s.at.Selecting?
    ensures Flow(Step(s, ReadSome(dir, chunk)))
  {
    AddWraps(|s.ab.read| + |s.ba.read|, |chunk|);
  }

  lemma SameBytesKeepFlow(s: State, s': State)
    requires Flow(s) && s'.rx == s.rx && s'.tx == s.tx && !s'.at.Writing?
    requires s'.ab.read == s.ab.read && s'.ab.written == s.ab.written
    requires s'.ba.read == s.ba.read && s'.ba.written == s.ba.written
    requires s'.at == Returned(false) || s.at.Selecting? || s.at.ShuttingDown?
    ensures Flow(s')
  {
  }

  lemma OtherStepKeepsFlow(s: State, e: Event)
    requires Flow(s) && !(s.at.Writing? && e.WriteSome?) && !(s.at.Selecting? && e.ReadSome?)
    ensures Flow(Step(s, e))
  {
    hide Flow;
    if Step(s, e) != s { SameBytesKeepFlow(s, Step(s, e)); }
  }

  lemma StepKeepsFlow(s: State, e: Event)
    requires Flow(s)
    ensures Flow(Step(s, e))
  {
    hide Flow;
    if s.at.Writing? && e.WriteSome? {
      if e.n <= |s.at.rest| { WriteKeepsFlow(s, e.n); }
    } else if s.at.Selecting? && e.ReadSome? {
      ReadKeepsFlow(s, e.dir, e.chunk);
    } else {
      OtherStepKeepsFlow(s, e);
    }
  }

  lemma StepKeepsInvariant(s: State, e: Event)
    requires Invariant(s)
    ensures Invariant(Step(s, e))
  {
    hide Flow;
    StepKeepsFlow(s, e);
  }

  lemma {:induction false} EveryRunKeepsInvariant(script: seq<Event>)
    ensures Invariant(Run(START, script))
  {
    if script != [] {
      EveryRunKeepsInvariant(script[..|script| - 1]);
      StepKeepsInvariant(Run(START, script[..|script| - 1]), script[|script| - 1]);
    }
  }

  // ---------------------------------------------------------------- what it means for a connection

  /** After any script: each side holds a prefix of what the other sent, all of it whenever the
      relay waits for input or has returned Ok; and the counters differ by the bytes in flight. */
  lemma BytesArriveInOrder(script: seq<Event>)
    ensures var s := Run(START, script);
            && s.ab.written <= s.ab.read && s.ba.written <= s.ba.read
            && (s.at.Selecting? || s.at == Returned(true) ==> s.ab.written == s.ab.read && s.ba.written == s.ba.read)
            && (s.at != Returned(false) ==> (s.rx - s.tx) % U64 == |InFlight(s, AToB)| + |InFlight(s, BToA)|)
  {
    hide Run;
    EveryRunKeepsInvariant(script);
    if Run(START, script).at != Returned(false) { CountersTellInFlight(Run(START, script)); }
  }

  lemma CountersTellInFlight(s: State)
    requires Flow(s) && s.at != Returned(false)
    ensures (s.rx - s.tx) % U64 == |InFlight(s, AToB)| + |InFlight(s, BToA)|
  {
    assert |s.ab.read| == |s.ab.written + InFlight(s, AToB)| && |s.ba.read| == |s.ba.written + InFlight(s, BToA)|;
    CountersDiffer(|s.ab.read| + |s.ba.read|, |s.ab.written| + |s.ba.written|,
                   |InFlight(s, AToB)| + |InFlight(s, BToA)|);
  }

  lemma CountersDiffer(r: nat, w: nat, d: nat)
    requires r == w + d && d < U64
    ensures (r % U64 - w % U64) % U64 == d
  {
    assert r % U64 == (w % U64 + d) % U64;
  }

  /** Ok is returned only after both ends of file, or after the grace of a half-closed relay. */
  lemma OkMeansBothEndsOrGrace(script: seq<Event>)
    requires Run(START, script).at == Returned(true)
    ensures var s := Run(START, script);
            if s.expired then s.ab.done != s.ba.done && GraceExpires in script
            else s.ab.done && s.ba.done
  {
    EveryRunKeepsInvariant(script);
    ExpiryIsAnEvent(script);
  }

  lemma {:induction false} ExpiryIsAnEvent(script: seq<Event>)
    ensures Run(START, script).expired ==> GraceExpires in script
  {
    if script != [] { ExpiryIsAnEvent(script[..|script| - 1]); }
  }

  /** The grace-bounded loop is entered with exactly one direction finished. */
  lemma SecondLoopIsHalfClosed(script: seq<Event>)
    ensures var s := Run(START, script);
            s.at.Selecting? ==> (s.at.second <==> s.ab.done != s.ba.done) && !(s.ab.done && s.ba.done)
  {
    EveryRunKeepsInvariant(script);
  }

  lemma StepAfterShutdown(s: State, e: Event, dir: Dir)
    requires Control(s) && Get(s, dir).shut
    ensures Get(Step(s, e), dir).written == Get(s, dir).written && Get(Step(s, e), dir).shut
  {
  }

  /** Once a side was shut down, however the run goes on, nothing more is written to it. */
  lemma {:induction false} NoWriteAfterShutdown(before: seq<Event>, after: seq<Event>, dir: Dir)
    requires Get(Run(START, before), dir).shut
    ensures Get(Run(START, before + after), dir).written == Get(Run(START, before), dir).written
    ensures Get(Run(START, before + after), dir).shut
    decreases after
  {
    hide Step, Flow, Control, Get;
    if after == [] {
      assert before + after == before;
    } else {
      var script, after' := before + after, after[..|after| - 1];
      assert script[..|script| - 1] == before + after';
      NoWriteAfterShutdown(before, after', dir);
      EveryRunKeepsInvariant(before + after');
      StepAfterShutdown(Run(START, before + after'), after[|after| - 1], dir);
    }
  }

  // ---------------------------------------------------------------- what is offered is delivered

  function Other(dir: Dir): Dir { if dir == AToB then BToA else AToB }

  lemma {:induction false} RunConcat(s: State, a: seq<Event>, b: seq<Event>)
    ensures Run(s, a + b) == Run(Run(s, a), b)
    decreases b
  {
    hide Step;
    if b == [] {
      assert a + b == a;
    } else {
      assert (a + b)[..|a + b| - 1] == a + b[..|b| - 1];
      RunConcat(s, a, b[..|b| - 1]);
    }
  }

  lemma RunOne(s: State, e: Event)
    ensures Run(s, [e]) == Step(s, e)
  {
    assert [e][..0] == [] && Run(s, []) == s;
  }

  /** Partial writes of these sizes, none of them empty. */
  function Writes(pieces: seq<nat>): seq<Event> { seq(|pieces|, i requires 0 <= i < |pieces| => WriteSome(pieces[i])) }

  function Total(pieces: seq<nat>): nat { if pieces == [] then 0 else pieces[0] + Total(pieces[1..]) }

  predicate Splits(pieces: seq<nat>, n: nat) {
    Total(pieces) == n && forall i :: 0 <= i < |pieces| ==> pieces[i] > 0
  }

  /** However the sink takes it, a chunk in flight arrives as it is and the relay goes back to its
      loop. */
  lemma {:induction false} PiecesArrive(s: State, pieces: seq<nat>)
    requires s.at.Writing? && !Get(s, s.at.dir).done && s.at.rest != [] && Splits(pieces, |s.at.rest|)
    requires s.at.second == (s.ab.done || s.ba.done)
    ensures var s', h := Run(s, Writes(pieces)), Get(s, s.at.dir);
            && s'.at == Selecting(s.at.second) && s'.expired == s.expired && s'.rx == s.rx
            && Get(s', s.at.dir) == h.(written := h.written + s.at.rest)
            && Get(s', Other(s.at.dir)) == Get(s, Other(s.at.dir))
    decreases |pieces|
  {
    hide Step, Run, Writes;
    assert pieces != [];
    var dir, rest, n, more := s.at.dir, s.at.rest, pieces[0], pieces[1..];
    var s1, h := Step(s, WriteSome(n)), Get(s, dir);
    StepOfWrite(s, WriteSome(n));
    FirstWrite(pieces);
    RunConcat(s, [WriteSome(n)], Writes(more));
    RunOne(s, WriteSome(n));
    if n == |rest| {
      NothingMore(more);
      RunNone(s1, Writes(more));
      assert rest[..n] == rest;
    } else {
      assert |rest[n..]| == Total(more);
      PiecesArrive(s1, more);
      assert (h.written + rest[..n]) + rest[n..] == h.written + rest;
    }
  }

  lemma NothingMore(pieces: seq<nat>)
    requires Splits(pieces, 0)
    ensures pieces == [] && Writes(pieces) == []
  {
  }

  lemma FirstWrite(pieces: seq<nat>)
    requires pieces != []
    ensures Writes(pieces) == [WriteSome(pieces[0])] + Writes(pieces[1..])
  {
  }

  lemma RunNone(s: State, script: seq<Event>)
    requires script == []
    ensures Run(s, script) == s
  {
  }

  /** In either loop: a chunk read from an open side is delivered to the other one whole and behind
      everything delivered before, in whatever pieces the sink takes it, and nothing else happens. */
  lemma ChunkIsForwarded(script: seq<Event>, dir: Dir, chunk: seq<byte>, pieces: seq<nat>)
    requires Run(START, script).at.Selecting? && !Get(Run(START, script), dir).done
    requires 0 < |chunk| <= 16384 && Splits(pieces, |chunk|)
    ensures var s, s' := Run(START, script), Run(START, script + ([ReadSome(dir, chunk)] + Writes(pieces)));
            && s'.at == s.at && !s'.expired
            && Get(s', dir) == Get(s, dir).(read := Get(s, dir).read + chunk, written := Get(s, dir).written + chunk)
            && Get(s', Other(dir)) == Get(s, Other(dir))
  {
    hide Run, Flow;
    var s, e := Run(START, script), ReadSome(dir, chunk);
    EveryRunKeepsInvariant(script);
    RunConcat(START, script, [e] + Writes(pieces));
    RunConcat(s, [e], Writes(pieces));
    RunOne(s, e);
    PiecesArrive(Step(s, e), pieces);
  }

  /** In either loop: the end of a side is passed on by shutting the other one down; the relay then
      returns Ok exactly when the other direction had ended before, else it goes on half-closed. */
  lemma EndIsPassedOn(script: seq<Event>, dir: Dir)
    requires Run(START, script).at.Selecting? && !Get(Run(START, script), dir).done
    ensures var s, s' := Run(START, script), Run(START, script + [ReadEof(dir), ShutdownReturns]);
            && s'.at == (if Get(s, Other(dir)).done then Returned(true) else Selecting(true)) && !s'.expired
            && Get(s', dir) == Get(s, dir).(done := true, shut := true)
            && Get(s', Other(dir)) == Get(s, Other(dir))
  {
    hide Run, Flow;
    var s := Run(START, script);
    EveryRunKeepsInvariant(script);
    RunConcat(START, script, [ReadEof(dir), ShutdownReturns]);
    assert [ReadEof(dir), ShutdownReturns] == [ReadEof(dir)] + [ShutdownReturns];
    RunConcat(s, [ReadEof(dir)], [ShutdownReturns]);
    RunOne(s, ReadEof(dir));
    RunOne(Step(s, ReadEof(dir)), ShutdownReturns);
  }

  /** A failing read ends the relay with an error; the grace ends it with Ok, but only once it is
      half-closed. Neither touches a byte. */
  lemma FailuresAndGrace(script: seq<Event>, dir: Dir)
    requires Run(START, script).at.Selecting?
    ensures var s, failed := Run(START, script), Run(START, script + [ReadError(dir)]);
            failed == if Get(s, dir).done then s else s.(at := Returned(false))
    ensures var s, late := Run(START, script), Run(START, script + [GraceExpires]);
            late == if s.ab.done || s.ba.done then s.(at := Returned(true), expired := true) else s
  {
    hide Run, Flow;
    var s := Run(START, script);
    EveryRunKeepsInvariant(script);
    RunConcat(START, script, [ReadError(dir)]);
    RunConcat(START, script, [GraceExpires]);
    RunOne(s, ReadError(dir));
    RunOne(s, GraceExpires);
  }

  /** A sink that fails, or takes nothing, ends the relay with an error; what it took stays taken. */
  lemma SinkFailures(script: seq<Event>)
    requires Run(START, script).at.Writing?
    ensures var s := Run(START, script);
            && Run(START, script + [WriteError]) == s.(at := Returned(false))
            && Run(START, script + [WriteSome(0)]).at == Returned(false)
            && (forall dir :: Get(Run(START, script + [WriteSome(0)]), dir) == Get(s, dir))
  {
    hide Run;
    var s := Run(START, script);
    RunConcat(START, script, [WriteError]);
    RunConcat(START, script, [WriteSome(0)]);
    RunOne(s, WriteError);
    RunOne(s, WriteSome(0));
    assert Get(s, s.at.dir).written + s.at.rest[..0] == Get(s, s.at.dir).written;
  }

  /** A conversation: chunks in both directions, each taken in some pieces, and the ends of the two
      sides. */
  datatype Exchange = Says(dir: Dir, chunk: seq<byte>, pieces: seq<nat>) | Ends(dir: Dir)

  function Ended(talk: seq<Exchange>, dir: Dir): bool { Ends(dir) in talk }

  /** No side speaks or ends after its end, or after both have ended. */
  predicate Polite(talk: seq<Exchange>) {
    talk == [] ||
    var before, x := talk[..|talk| - 1], talk[|talk| - 1];
    && Polite(before) && !Ended(before, x.dir)
    && (x.Says? ==> 0 < |x.chunk| <= 16384 && Splits(x.pieces, |x.chunk|))
  }

  function ScriptOf(talk: seq<Exchange>): seq<Event> {
    if talk == [] then []
    else
      var x := talk[|talk| - 1];
      ScriptOf(talk[..|talk| - 1]) +
      (if x.Says? then [ReadSome(x.dir, x.chunk)] + Writes(x.pieces) else [ReadEof(x.dir), ShutdownReturns])
  }

  /** Everything one side says. */
  function Said(talk: seq<Exchange>, dir: Dir): seq<byte> {
    if talk == [] then []
    else
      var x := talk[|talk| - 1];
      Said(talk[..|talk| - 1], dir) + (if x.Says? && x.dir == dir then x.chunk else [])
  }

  /** What a conversation should have done to one direction. */
  predicate HalfIs(h: Half, talk: seq<Exchange>, dir: Dir) {
    h == Half(Said(talk, dir), Said(talk, dir), Ended(talk, dir), Ended(talk, dir))
  }

  ghost predicate Delivered(s: State, talk: seq<Exchange>) {
    && HalfIs(s.ab, talk, AToB) && HalfIs(s.ba, talk, BToA) && !s.expired
    && s.at == (if Ended(talk, AToB) && Ended(talk, BToA) then Returned(true)
                else Selecting(Ended(talk, AToB) || Ended(talk, BToA)))
  }

  lemma TalkGrows(before: seq<Exchange>, x: Exchange, dir: Dir)
    ensures Said(before + [x], dir) == Said(before, dir) + (if x.Says? && x.dir == dir then x.chunk else [])
    ensures Ended(before + [x], dir) <==> Ended(before, dir) || x == Ends(dir)
  {
    var talk := before + [x];
    assert talk[..|talk| - 1] == before && talk[|talk| - 1] == x;
  }

  lemma StillOpen(s: State, talk: seq<Exchange>, dir: Dir)
    requires Delivered(s, talk) && !Ended(talk, dir)
    ensures s.at.Selecting? && !Get(s, dir).done
  {
    hide Said, Ended;
    assert dir == AToB || dir == BToA;
  }

  lemma SayingDelivers(s: State, s': State, before: seq<Exchange>, x: Exchange)
    requires Delivered(s, before) && x.Says? && s'.at == s.at && !s'.expired
    requires var h := Get(s, x.dir); Get(s', x.dir) == h.(read := h.read + x.chunk, written := h.written + x.chunk)
    requires Get(s', Other(x.dir)) == Get(s, Other(x.dir))
    ensures Delivered(s', before + [x])
  {
    hide Said, Ended;
    TalkGrows(before, x, AToB);
    TalkGrows(before, x, BToA);
    assert Said(before, AToB) + [] == Said(before, AToB) && Said(before, BToA) + [] == Said(before, BToA);
  }

  lemma EndingDelivers(s: State, s': State, before: seq<Exchange>, x: Exchange)
    requires Delivered(s, before) && x.Ends? && !Ended(before, x.dir) && !s'.expired
    requires s'.at == if Get(s, Other(x.dir)).done then Returned(true) else Selecting(true)
    requires Get(s', x.dir) == Get(s, x.dir).(done := true, shut := true)
    requires Get(s', Other(x.dir)) == Get(s, Other(x.dir))
    ensures Delivered(s', before + [x])
  {
    hide Said, Ended;
    TalkGrows(before, x, AToB);
    TalkGrows(before, x, BToA);
    assert Said(before, AToB) + [] == Said(before, AToB) && Said(before, BToA) + [] == Said(before, BToA);
  }

  /** Every conversation is delivered: each side receives exactly what the other said, is shut down
      exactly if the other ended, and the relay returns Ok exactly when both have ended. */
  lemma {:induction false} ConversationIsDelivered(talk: seq<Exchange>)
    requires Polite(talk)
    ensures Delivered(Run(START, ScriptOf(talk)), talk)
  {
    if talk == [] {
      RunNone(START, []);
    } else {
      hide Run, Step, Splits, Said, Ended, Delivered;
      var before, x := talk[..|talk| - 1], talk[|talk| - 1];
      ConversationIsDelivered(before);
      assert talk == before + [x];
      var script := ScriptOf(before);
      StillOpen(Run(START, script), before, x.dir);
      if x.Says? {
        ChunkIsForwarded(script, x.dir, x.chunk, x.pieces);
        SayingDelivers(Run(START, script), Run(START, ScriptOf(talk)), before, x);
      } else {
        EndIsPassedOn(script, x.dir);
        EndingDelivers(Run(START, script), Run(START, ScriptOf(talk)), before, x);
      }
    }
  }

  // ---------------------------------------------------------------- the imperative relay

  class ByteCounters {
    var rx: nat
    var tx: nat

    constructor ()
      ensures rx == 0 && tx == 0
    {
      rx, tx := 0, 0;
    }
  }

  /** A socket wrapped so that every byte read or written is tallied. */
  class CountingStream {
    const counters: ByteCounters
    var received: seq<byte>
    var sent: seq<byte>
    var closed: bool

    constructor (counters: ByteCounters)
      ensures this.counters == counters && received == [] && sent == [] && !closed
    {
      this.counters := counters;
      received, sent, closed := [], [], false;
    }

    method PollRead(chunk: seq<byte>)
      modifies this`received, counters`rx
      ensures received == old(received) + chunk
      ensures counters.rx == (old(counters.rx) + |chunk|) % U64
    {
      received := received + chunk;
      counters.rx := (counters.rx + |chunk|) % U64;
    }

    method PollWrite(bytes: seq<byte>)
      modifies this`sent, counters`tx
      ensures sent == old(sent) + bytes
      ensures counters.tx == (old(counters.tx) + |bytes|) % U64
    {
      sent := sent + bytes;
      counters.tx := (counters.tx + |bytes|) % U64;
    }

    method Shutdown()
      modifies this`closed
      ensures closed
    {
      closed := true;
    }
  }

  ghost function View(a: CountingStream, b: CountingStream, at: Point, abDone: bool, baDone: bool, expired: bool): State
    reads a, b, a.counters
  {
    State(at, Half(a.received, b.sent, abDone, b.closed), Half(b.received, a.sent, baDone, a.closed),
          a.counters.rx, a.counters.tx, expired)
  }

  lemma RunNext(script: seq<Event>, i: nat)
    requires i < |script|
    ensures Run(START, script[..i + 1]) == Step(Run(START, script[..i]), script[i])
  {
    assert script[..i + 1][..i] == script[..i];
  }

  lemma {:induction false} RunReturned(script: seq<Event>, i: nat)
    requires i <= |script| && Run(START, script[..i]).at.Returned?
    ensures Run(START, script) == Run(START, script[..i])
    decreases |script| - i
  {
    if i == |script| {
      assert script[..i] == script;
    } else {
      RunNext(script, i);
      RunReturned(script, i + 1);
    }
  }

  function AtHead(abDone: bool, baDone: bool): Point {
    if abDone && baDone then Returned(true) else Selecting(abDone || baDone)
  }

  /** `write_all` of one chunk: partial writes until nothing is left, an error, or the drop. */
  method WriteAll(a: CountingStream, b: CountingStream, dir: Dir, chunk: seq<byte>, script: seq<Event>, i: nat,
                  second: bool, abDone: bool, baDone: bool) returns (j: nat, at: Point)
    requires a != b && a.counters == b.counters && i <= |script|
    requires View(a, b, Writing(dir, chunk, second), abDone, baDone, false) == Run(START, script[..i])
    requires second == (abDone || baDone) && !(abDone && baDone) && chunk != []
    modifies a`sent, b`sent, a.counters`tx
    ensures i <= j <= |script| && View(a, b, at, abDone, baDone, false) == Run(START, script[..j])
    ensures at == AtHead(abDone, baDone) || at == Returned(false) || j == |script|
  {
    hide Run, Step;
    var to := if dir == AToB then b else a;
    var rest := chunk;
    j, at := i, Writing(dir, chunk, second);
    while rest != []
      invariant i <= j <= |script|
      invariant rest != [] ==> at == Writing(dir, rest, second)
      invariant rest == [] ==> at == AtHead(abDone, baDone)
      invariant View(a, b, at, abDone, baDone, false) == Run(START, script[..j])
      decreases |script| - j
    {
      if j == |script| { return; }
      var e := script[j];
      RunNext(script, j);
      StepOfWrite(View(a, b, at, abDone, baDone, false), e);
      j := j + 1;
      if e.WriteSome? && e.n <= |rest| {
        to.PollWrite(rest[..e.n]);
        if e.n == 0 { at := Returned(false); return; }
        rest := rest[e.n..];
        at := if rest == [] then AtHead(abDone, baDone) else Writing(dir, rest, second);
      } else if e.WriteError? {
        at := Returned(false);
        return;
      }
    }
  }

  lemma StepOfWrite(s: State, e: Event)
    requires s.at.Writing?
    ensures var h := Get(s, s.at.dir);
            Step(s, e) ==
            if e.WriteSome? && e.n <= |s.at.rest| then
              Put(s, s.at.dir, h.(written := h.written + s.at.rest[..e.n])).(
                tx := (s.tx + e.n) % U64,
                at := if e.n == 0 then Returned(false)
                      else if e.n < |s.at.rest| then Writing(s.at.dir, s.at.rest[e.n..], s.at.second)
                      else if s.ab.done && s.ba.done then Returned(true)
                      else Selecting(s.at.second || s.ab.done || s.ba.done))
            else if e.WriteError? then s.(at := Returned(false))
            else s
  {
  }

  /** One arm of either `select!`: a read outcome handled to the end of its write or shutdown. */
  method Turn(a: CountingStream, b: CountingStream, script: seq<Event>, i: nat, ab: bool, ba: bool)
    returns (j: nat, at: Point, abDone: bool, baDone: bool)
    requires a != b && a.counters == b.counters && i < |script| && !(ab && ba)
    requires View(a, b, Selecting(ab || ba), ab, ba, false) == Run(START, script[..i])
    requires !((ab || ba) && script[i].GraceExpires?)
    modifies a, b, a.counters
    ensures i < j <= |script| && View(a, b, at, abDone, baDone, false) == Run(START, script[..j])
    ensures at == AtHead(abDone, baDone) || at == Returned(false) || j == |script|
    ensures (ab ==> abDone) && (ba ==> baDone)
  {
    hide Run;
    var e := script[i];
    RunNext(script, i);
    j, at, abDone, baDone := i + 1, Selecting(ab || ba), ab, ba;
    if (e.ReadSome? || e.ReadEof? || e.ReadError?) && !(if e.dir == AToB then ab else ba) {
      var from, to := if e.dir == AToB then a else b, if e.dir == AToB then b else a;
      match e
      case ReadSome(dir, chunk) =>
        if 0 < |chunk| <= CHUNK {
          from.PollRead(chunk);
          j, at := WriteAll(a, b, dir, chunk, script, j, ab || ba, ab, ba);
        }
      case ReadEof(dir) =>
        if dir == AToB { abDone := true; } else { baDone := true; }
        at := ShuttingDown(dir, ab || ba);
        while j < |script| && at.ShuttingDown?
          invariant i < j <= |script| && (at == ShuttingDown(dir, ab || ba) || at == AtHead(abDone, baDone))
          invariant View(a, b, at, abDone, baDone, false) == Run(START, script[..j])
          decreases |script| - j
        {
          RunNext(script, j);
          if script[j].ShutdownReturns? {
            to.Shutdown();
            at := AtHead(abDone, baDone);
          }
          j := j + 1;
        }
      case ReadError(_) => at := Returned(false);
    }
  }

  /** `copy_bidirectional_half_close`: its two loops do, script by script, what the machine does. */
  method CopyHalfClose(a: CountingStream, b: CountingStream, script: seq<Event>)
    returns (at: Point, abDone: bool, baDone: bool, expired: bool)
    requires a != b && a.counters == b.counters
    requires View(a, b, Selecting(false), false, false, false) == START
    modifies a, b, a.counters
    ensures View(a, b, at, abDone, baDone, expired) == Run(START, script)
  {
    hide Run, Step;
    at, abDone, baDone, expired := Selecting(false), false, false, false;
    var i := 0;
    assert Run(START, script[..0]) == START by { RunNone(START, script[..0]); }
    assert script[..|script|] == script;
    while !abDone && !baDone
      invariant i <= |script| && at == AtHead(abDone, baDone)
      invariant View(a, b, at, abDone, baDone, false) == Run(START, script[..i])
      decreases |script| - i
    {
      if i == |script| { return; }
      i, at, abDone, baDone := Turn(a, b, script, i, abDone, baDone);
      if at != AtHead(abDone, baDone) {
        if at.Returned? { RunReturned(script, i); }
        return;
      }
    }
    while !(abDone && baDone)
      invariant i <= |script| && at == AtHead(abDone, baDone) && (abDone || baDone)
      invariant View(a, b, at, abDone, baDone, false) == Run(START, script[..i])
      decreases |script| - i
    {
      if i == |script| { return; }
      if script[i].GraceExpires? {
        RunNext(script, i);
        StepOfGrace(View(a, b, at, abDone, baDone, false));
        at, expired := Returned(true), true;
        RunReturned(script, i + 1);
        return;
      }
      i, at, abDone, baDone := Turn(a, b, script, i, abDone, baDone);
      if at != AtHead(abDone, baDone) {
        if at.Returned? { RunReturned(script, i); }
        return;
      }
    }
    RunReturned(script, i);
  }

  lemma StepOfGrace(s: State)
    requires s.at == Selecting(true)
    ensures Step(s, GraceExpires) == s.(at := Returned(true), expired := true)
  {
  }
}
