/** The rotated event log and its tail (core/src/logging.rs). Files are bytes; a line is what
    `str::lines` yields: cut at line feeds, one carriage return before a line feed dropped. */
module Logging {
  import opened Common

  const LF: byte := 10
  const CR: byte := 13

  function FirstLf(s: Bytes): (k: nat)
    ensures k <= |s| && (k < |s| ==> s[k] == LF)
    ensures forall i :: 0 <= i < k ==> s[i] != LF
  {
    if s == [] || s[0] == LF then 0 else 1 + FirstLf(s[1..])
  }

  function StripCr(line: Bytes): Bytes {
    if line != [] && line[|line| - 1] == CR then line[..|line| - 1] else line
  }

  function Lines(s: Bytes): seq<Bytes> {
    var k := FirstLf(s);
    if s == [] then [] else if k == |s| then [s] else [StripCr(s[..k])] + Lines(s[k + 1..])
  }

  function CountLf(s: Bytes): nat {
    if s == [] then 0 else (if s[0] == LF then 1 else 0) + CountLf(s[1..])
  }

  function LastN<T>(xs: seq<T>, n: nat): seq<T> { if |xs| <= n then xs else xs[|xs| - n..] }

  // ---------------------------------------------------------------- windows

  lemma LinesStep(x: Bytes, rest: Bytes)
    requires LF !in x
    ensures Lines(x + ([LF] + rest)) == [StripCr(x)] + Lines(rest)
  {
    var s := x + ([LF] + rest);
    assert s[|x|] == LF && forall i :: 0 <= i < |x| ==> s[i] == x[i];
    assert FirstLf(s) == |x|;
    assert s[..|x|] == x && s[|x| + 1..] == rest;
  }

  /** Text that ends with a line feed contributes its own lines, whatever follows. */
  lemma {:induction false} LinesSplit(a: Bytes, b: Bytes)
    requires a != [] && a[|a| - 1] == LF
    ensures Lines(a + b) == Lines(a) + Lines(b)
    decreases |a|
  {
    hide *;
    var k := FirstLf(a);
    var x, a' := a[..k], a[k + 1..];
    assert a == x + ([LF] + a') && a + b == x + ([LF] + (a' + b));
    LinesStep(x, a');
    LinesStep(x, a' + b);
    if a' == [] {
      assert a' + b == b;
      NoLines();
    } else {
      LinesSplit(a', b);
    }
  }

  lemma NoLines()
    ensures Lines([]) == []
  {
  }

  lemma {:induction false} CountSplit(a: Bytes, b: Bytes)
    ensures CountLf(a + b) == CountLf(a) + CountLf(b)
  {
    if a == [] {
      assert a + b == b;
    } else {
      assert (a + b)[1..] == a[1..] + b;
      CountSplit(a[1..], b);
    }
  }

  lemma {:induction false} NoLfNoCount(s: Bytes)
    requires LF !in s
    ensures CountLf(s) == 0
  {
    if s != [] { NoLfNoCount(s[1..]); }
  }

  lemma {:induction false} AtLeastCountLines(s: Bytes)
    ensures CountLf(s) <= |Lines(s)|
    decreases |s|
  {
    var k := FirstLf(s);
    if k == |s| {
      NoLfNoCount(s);
    } else {
      assert s == s[..k] + ([LF] + s[k + 1..]);
      CountSplit(s[..k], [LF] + s[k + 1..]);
      NoLfNoCount(s[..k]);
      AtLeastCountLines(s[k + 1..]);
    }
  }

  lemma OneLf()
    ensures CountLf([LF]) == 1
  {
  }

  lemma LastNOfConcat<T>(a: seq<T>, b: seq<T>, n: nat)
    requires n <= |b|
    ensures LastN(a + b, n) == LastN(b, n)
  {
  }

  /** A window with more than `n` line feeds has the file's last `n` lines, even when it starts
      in the middle of a line. */
  lemma WindowSuffices(before: Bytes, window: Bytes, n: nat)
    requires CountLf(window) > n
    ensures LastN(Lines(window), n) == LastN(Lines(before + window), n)
  {
    hide *;
    var k := FirstLf(window);
    assert k < |window| by {
      if k == |window| { NoLfNoCount(window); }
    }
    OneLf();
    var head, tail := window[..k] + [LF], window[k + 1..];
    assert window == head + tail && before + window == (before + head) + tail;
    LinesSplit(head, tail);
    LinesSplit(before + head, tail);
    CountSplit(head, tail);
    CountSplit(window[..k], [LF]);
    NoLfNoCount(window[..k]);
    AtLeastCountLines(tail);
    LastNOfConcat(Lines(head), Lines(tail), n);
    LastNOfConcat(Lines(before + head), Lines(tail), n);
  }

  // ---------------------------------------------------------------- tail_file

  function SaturatingMul(a: nat, b: nat): nat { if a * b < U64 then a * b else U64 - 1 }

  /** `(lines + 1).saturating_mul(256)`, where the addition wraps in a release build. */
  function FirstWindow(lines: nat): nat { SaturatingMul((lines + 1) % U64, 256) }

  predicate Enough(content: Bytes, window: nat, lines: nat)
    requires window <= |content|
  {
    CountLf(content[|content| - window..]) > lines || window >= |content|
  }

  /** `tail_file`: growing the window backwards returns exactly the last lines of the whole file. */
  method TailFile(file: Option<Bytes>, lines: nat) returns (tail: seq<Bytes>)
    requires lines < U64 && (file.Some? ==> |file.value| < U64)
    requires !(lines == U64 - 1 && file.Some? && file.value != [])
    ensures tail == if file.Some? then LastN(Lines(file.value), lines) else []
  {
    if file.None? { return []; }
    var content := file.value;
    var size := |content|;
    var window := FirstWindow(lines);
    var buffer := [];
    while true
      invariant window > 0 || size == 0
      decreases size - window
    {
      window := if window < size then window else size;
      var start := size - window;
      buffer := content[start..];
      if CountLf(buffer) > lines || window >= size {
        assert content == content[..start] + buffer;
        if CountLf(buffer) > lines { WindowSuffices(content[..start], buffer, lines); }
        break;
      }
      window := SaturatingMul(window, 2);
    }
    tail := LastN(Lines(buffer), lines);
  }

  /** Asking for `usize::MAX` lines makes the first window empty, and an empty window never grows:
      on a non-empty file the loop neither stops nor changes. */
  lemma MaxLinesNeverStops(content: Bytes)
    requires 0 < |content| < U64
    ensures FirstWindow(U64 - 1) == 0
    ensures !Enough(content, 0, U64 - 1) && SaturatingMul(0, 2) == 0
  {
    assert content[|content| - 0..] == [];
  }

  // ---------------------------------------------------------------- append_rotated

  const MAX_LOG_LINES: nat := 199
  const TRIM_LINES: nat := 20

  /** `join("\n")`. */
  function Join(ls: seq<Bytes>): Bytes {
    if ls == [] then [] else if |ls| == 1 then ls[0] else ls[0] + [LF] + Join(ls[1..])
  }

  function Unlines(ls: seq<Bytes>): Bytes { if ls == [] then [] else ls[0] + ([LF] + Unlines(ls[1..])) }

  /** The file after one append. */
  function Appended(content: Bytes, line: Bytes): Bytes {
    if |Lines(content)| >= MAX_LOG_LINES then
      var kept := Join(Lines(content)[TRIM_LINES..]);
      (if kept != [] then kept + [LF] else kept) + line + [LF]
    else content + line + [LF]
  }

  class LogFile {
    var content: Option<Bytes>

    constructor ()
      ensures content == None
    {
      content := None;
    }

    /** `append_rotated`, on a file system that accepts the write. */
    method AppendRotated(line: Bytes)
      modifies this
      ensures content == Some(Appended(if old(content).Some? then old(content).value else [], line))
    {
      var current := if content.Some? then content.value else [];
      var ls := Lines(current);
      if |ls| >= MAX_LOG_LINES {
        var out := Join(ls[TRIM_LINES..]);
        if out != [] { out := out + [LF]; }
        out := out + line;
        out := out + [LF];
        content := Some(out);
        return;
      }
      content := Some(current + line + [LF]);
    }
  }

  function LogOf(history: seq<Bytes>): Bytes {
    if history == [] then [] else Appended(LogOf(history[..|history| - 1]), history[|history| - 1])
  }

  function Views(ls: seq<Bytes>): seq<Bytes> { seq(|ls|, i requires 0 <= i < |ls| => StripCr(ls[i])) }

  predicate NoLf(ls: seq<Bytes>) { forall i :: 0 <= i < |ls| ==> LF !in ls[i] }

  lemma {:induction false} LinesOfUnlines(ls: seq<Bytes>)
    requires NoLf(ls)
    ensures Lines(Unlines(ls)) == Views(ls)
  {
    hide Lines, StripCr;
    if ls == [] {
      NoLines();
    } else {
      LinesStep(ls[0], Unlines(ls[1..]));
      LinesOfUnlines(ls[1..]);
      assert Views(ls) == [StripCr(ls[0])] + Views(ls[1..]);
    }
  }

  lemma {:induction false} JoinTerminated(ls: seq<Bytes>)
    requires ls != []
    ensures Join(ls) + [LF] == Unlines(ls)
  {
    if |ls| > 1 {
      JoinTerminated(ls[1..]);
      assert Join(ls) + [LF] == ls[0] + ([LF] + (Join(ls[1..]) + [LF]));
    } else {
      assert Unlines(ls[1..]) == [];
    }
  }

  lemma {:induction false} JoinNotEmpty(ls: seq<Bytes>)
    requires |ls| > 1
    ensures Join(ls) != []
  {
    assert LF in ls[0] + [LF];
  }

  lemma {:induction false} UnlinesSnoc(ls: seq<Bytes>, line: Bytes)
    ensures Unlines(ls + [line]) == Unlines(ls) + line + [LF]
  {
    if ls == [] {
      assert ls + [line] == [line];
      assert Unlines([line][1..]) == [];
    } else {
      assert (ls + [line])[1..] == ls[1..] + [line];
      UnlinesSnoc(ls[1..], line);
      assert Unlines(ls + [line]) == ls[0] + ([LF] + (Unlines(ls[1..]) + line + [LF]));
    }
  }

  lemma RotatedText(content: Bytes, line: Bytes)
    requires |Lines(content)| >= MAX_LOG_LINES
    ensures Appended(content, line) == Unlines(Lines(content)[TRIM_LINES..] + [line])
  {
    hide Lines, Join, Unlines;
    var kept := Lines(content)[TRIM_LINES..];
    JoinTerminated(kept);
    JoinNotEmpty(kept);
    UnlinesSnoc(kept, line);
  }

  /** The stored lines after an append: at the cap all but the oldest `TRIM_LINES` of them are
      read and written back, which costs each a trailing carriage return. */
  function NextStored(stored: seq<Bytes>, line: Bytes): seq<Bytes> {
    (if |stored| >= MAX_LOG_LINES then Views(stored)[TRIM_LINES..] else stored) + [line]
  }

  lemma AppendedStores(stored: seq<Bytes>, line: Bytes)
    requires NoLf(stored) && LF !in line
    ensures Appended(Unlines(stored), line) == Unlines(NextStored(stored, line)) && NoLf(NextStored(stored, line))
  {
    hide Lines, Unlines, Join;
    LinesOfUnlines(stored);
    if |stored| >= MAX_LOG_LINES { RotatedText(Unlines(stored), line); } else { UnlinesSnoc(stored, line); }
  }

  function Stored(history: seq<Bytes>): seq<Bytes> {
    if history == [] then [] else NextStored(Stored(history[..|history| - 1]), history[|history| - 1])
  }

  lemma {:induction false} LogIsStored(history: seq<Bytes>)
    requires NoLf(history)
    ensures LogOf(history) == Unlines(Stored(history)) && NoLf(Stored(history))
    ensures Lines(LogOf(history)) == Views(Stored(history))
  {
    hide Lines, Appended, NextStored, Views;
    if history != [] {
      LogIsStored(history[..|history| - 1]);
      AppendedStores(Stored(history[..|history| - 1]), history[|history| - 1]);
    }
    LinesOfUnlines(Stored(history));
  }

  // ---------------------------------------------------------------- what a rotated log holds

  /** How many lines the log holds after `n` appends: all of them up to the cap, then 180 to 199. */
  function StoredCount(n: nat): nat { if n <= MAX_LOG_LINES then n else 180 + (n - 200) % 20 }

  /** The line with this history index was appended before the latest rotation. */
  predicate Rewritten(n: nat, index: nat) { n > MAX_LOG_LINES && index + 1 + (n - 200) % 20 < n }

  /** How many rotations have rewritten the line with this history index after `n` appends. */
  function Rewrites(n: nat, index: nat): nat {
    if n <= index + 1 then 0
    else Rewrites(n - 1, index) + (if StoredCount(n - 1) >= MAX_LOG_LINES then 1 else 0)
  }

  function Strip(k: nat, line: Bytes): Bytes { if k == 0 then line else StripCr(Strip(k - 1, line)) }

  lemma CountStep(n: nat)
    ensures StoredCount(n + 1) == if StoredCount(n) >= MAX_LOG_LINES then 180 else StoredCount(n) + 1
  {
  }

  lemma {:induction false} RewritesExactly(n: nat, index: nat)
    requires index < n
    ensures Rewrites(n, index) > 0 <==> Rewritten(n, index)
  {
    if index + 1 < n {
      RewritesExactly(n - 1, index);
      CountStep(n - 1);
    }
  }

  /** Line by line: the log holds the newest lines, each stripped once for every rotation it saw. */
  lemma {:induction false} StoredIs(history: seq<Bytes>)
    ensures |Stored(history)| == StoredCount(|history|) <= |history|
    ensures var stored, skip := Stored(history), |history| - |Stored(history)|;
            forall i :: 0 <= i < |stored| ==> stored[i] == Strip(Rewrites(|history|, skip + i), history[skip + i])
  {
    hide StripCr, StoredCount, Strip, Rewrites;
    CountFits(|history|);
    if history != [] {
      var h := history[..|history| - 1];
      var before, stored := Stored(h), Stored(history);
      StoredIs(h);
      CountFits(|h|);
      CountStep(|h|);
      var skip, skip' := |h| - |before|, |history| - |stored|;
      forall i | 0 <= i < |stored| ensures stored[i] == Strip(Rewrites(|history|, skip' + i), history[skip' + i]) {
        RewritesStep(|h|, skip' + i, history[skip' + i]);
        if i < |stored| - 1 { assert h[skip' + i] == history[skip' + i]; }
      }
    }
  }

  lemma CountFits(n: nat)
    ensures StoredCount(n) <= n && StoredCount(n) <= MAX_LOG_LINES && StoredCount(0) == 0
  {
  }

  lemma RewritesStep(n: nat, index: nat, line: Bytes)
    requires index <= n
    ensures Strip(Rewrites(n + 1, index), line) ==
            if index == n then line
            else if StoredCount(n) >= MAX_LOG_LINES then StripCr(Strip(Rewrites(n, index), line))
            else Strip(Rewrites(n, index), line)
  {
  }

  /** After any newline-free appends to a fresh log: exactly this many lines, so at most 199 and at
      least the newest 180; each is the history's line stripped once per rotation and once to read. */
  lemma LogKeepsNewest(history: seq<Bytes>)
    requires NoLf(history)
    ensures var lines, n := Lines(LogOf(history)), |history|;
            && |lines| == StoredCount(n) <= MAX_LOG_LINES
            && (if n <= MAX_LOG_LINES then |lines| == n else 180 <= |lines| < n)
            && forall i :: 0 <= i < |lines| ==>
                 lines[i] == StripCr(Strip(Rewrites(n, n - |lines| + i), history[n - |lines| + i]))
  {
    hide Lines, LogOf, StripCr, Rewrites, Strip, Stored;
    LogIsStored(history);
    StoredIs(history);
  }

  /** A line that reads the same after being read back and written again. */
  predicate Stable(line: Bytes) { StripCr(StripCr(line)) == StripCr(line) }

  lemma StableExactly(line: Bytes)
    ensures Stable(line) <==> !(|line| >= 2 && line[|line| - 1] == CR && line[|line| - 2] == CR)
  {
  }

  lemma {:induction false} StripShortens(k: nat, line: Bytes)
    ensures |Strip(k + 1, line)| <= |StripCr(line)|
    ensures k > 0 && !Stable(line) ==> |Strip(k + 1, line)| < |StripCr(line)|
    ensures Stable(line) ==> Strip(k + 1, line) == StripCr(line)
  {
    if k > 0 { StripShortens(k - 1, line); }
  }

  /** A line reads as it was appended if and only if no rotation rewrote it or it is stable. */
  lemma ReadsTheSame(k: nat, line: Bytes)
    ensures StripCr(Strip(k, line)) == StripCr(line) <==> k == 0 || Stable(line)
  {
    StripShortens(k, line);
  }

  /** Line `j` of the history reads the same in both logs. */
  predicate Survives(history: seq<Bytes>, j: nat)
    requires j < |history|
  {
    Rewritten(|history|, j) ==> Stable(history[j])
  }

  lemma LineSurvives(history: seq<Bytes>, j: nat)
    requires NoLf(history) && |history| - StoredCount(|history|) <= j < |history|
    ensures var lines, all := Lines(LogOf(history)), Lines(Unlines(history));
            && |lines| == StoredCount(|history|) && |all| == |history|
            && (SameAt(lines, all, j) <==> Survives(history, j))
  {
    hide Lines, Unlines, LogOf, StripCr, Rewrites, Strip, Stable, Rewritten, StoredCount;
    var n, lines := |history|, Lines(LogOf(history));
    LinesOfUnlines(history);
    LogKeepsNewest(history);
    var i := j - (n - |lines|);
    assert lines[i] == StripCr(Strip(Rewrites(n, n - |lines| + i), history[n - |lines| + i]));
    ReadsTheSame(Rewrites(n, j), history[j]);
    RewritesExactly(n, j);
  }

  /** The last `n` lines of the rotated log are those of the log that was never rotated if and only
      if it still holds `n` lines, or the whole history, and every one of them that a rotation has
      rewritten is stable. */
  lemma RotationInvisibleExactly(history: seq<Bytes>, n: nat)
    requires NoLf(history)
    ensures LastN(Lines(LogOf(history)), n) == LastN(Lines(Unlines(history)), n) <==>
            && (n <= StoredCount(|history|) || |history| <= MAX_LOG_LINES)
            && forall j :: 0 <= j < |history| && |history| - n <= j ==> Survives(history, j)
  {
    hide Lines, Unlines, LogOf, Survives, LastN, StoredCount, Rewrites, Strip, StripCr, SameAt;
    var h, lines, all := history, Lines(LogOf(history)), Lines(Unlines(history));
    LogKeepsNewest(h);
    assert |all| == |h| by { LinesOfUnlines(h); }
    forall j | |h| - |lines| <= j < |h| ensures SameAt(lines, all, j) <==> Survives(h, j) {
      LineSurvives(h, j);
    }
    SameTail(lines, all, n);
  }

  /** Counted from their ends, the sequences agree at this index of the longer one. */
  predicate SameAt<T(==)>(xs: seq<T>, ys: seq<T>, j: nat)
    requires |xs| <= |ys| && |ys| - |xs| <= j < |ys|
  {
    xs[j - (|ys| - |xs|)] == ys[j]
  }

  lemma SameEnd<T>(xs: seq<T>, ys: seq<T>, m: nat)
    requires m <= |xs| <= |ys|
    ensures xs[|xs| - m..] == ys[|ys| - m..] <==> forall j :: |ys| - m <= j < |ys| ==> SameAt(xs, ys, j)
  {
    var a, b := xs[|xs| - m..], ys[|ys| - m..];
    if forall j :: |ys| - m <= j < |ys| ==> SameAt(xs, ys, j) {
      forall i | 0 <= i < m ensures a[i] == b[i] {
        assert SameAt(xs, ys, |ys| - m + i);
      }
    } else {
      var j :| |ys| - m <= j < |ys| && !SameAt(xs, ys, j);
      assert a[j - (|ys| - m)] != b[j - (|ys| - m)];
    }
  }

  lemma SameTail<T>(xs: seq<T>, ys: seq<T>, n: nat)
    requires |xs| <= |ys|
    ensures LastN(xs, n) == LastN(ys, n) <==>
            && (n <= |xs| || |xs| == |ys|)
            && forall j :: |ys| - |xs| <= j < |ys| && |ys| - n <= j ==> SameAt(xs, ys, j)
  {
    hide SameAt;
    SameEnd(xs, ys, if n <= |xs| then n else |xs|);
    assert xs[0..] == xs && ys[0..] == ys;
  }

  /** A history of lines that do not end in two carriage returns: rotation never shows in a tail of
      up to 180 lines. */
  lemma RotationIsInvisible(history: seq<Bytes>, n: nat)
    requires NoLf(history) && (forall j :: 0 <= j < |history| ==> Stable(history[j])) && n <= 180
    ensures LastN(Lines(LogOf(history)), n) == LastN(Lines(Unlines(history)), n)
  {
    hide Lines, Unlines, LogOf, Stable, Rewritten;
    RotationInvisibleExactly(history, n);
  }

  /** Two hundred appends of two carriage returns: the rotated log's last 180 lines differ. */
  lemma DoubleCrShows(history: seq<Bytes>)
    requires |history| == 200 && forall j :: 0 <= j < 200 ==> history[j] == [CR, CR]
    ensures LastN(Lines(LogOf(history)), 180) != LastN(Lines(Unlines(history)), 180)
  {
    hide Lines, Unlines, LogOf;
    assert history[100] == [CR, CR] && Rewritten(200, 100) && !Stable(history[100]);
    assert !Survives(history, 100);
    RotationInvisibleExactly(history, 180);
  }
}
