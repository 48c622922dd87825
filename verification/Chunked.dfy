/** The de-chunk loop of the hand-rolled HTTP client (engine/src/api.rs) against the chunked
    transfer coding of section 7.1 of RFC 9112. The body is ASCII text, one `char` per byte. */
module Chunked {
  import opened Common
  import opened Text

  function BeforeSemicolon(s: string): string {
    if s == "" || s[0] == ';' then "" else [s[0]] + BeforeSemicolon(s[1..])
  }

  function HexDigit(c: char): Option<nat> {
    if '0' <= c <= '9' then Some((c - '0') as nat)
    else if 'a' <= c <= 'f' then Some((c - 'a') as nat + 10)
    else if 'A' <= c <= 'F' then Some((c - 'A') as nat + 10)
    else None
  }

  /** Digits accumulated onto `value`; a 64-bit overflow is an error. */
  function HexFrom(s: string, value: nat): Option<nat> {
    if value >= U64 then None
    else if s == "" then Some(value)
    else if HexDigit(s[0]).None? then None
    else HexFrom(s[1..], 16 * value + HexDigit(s[0]).value)
  }

  /** `usize::from_str_radix(_, 16)`, which accepts a leading plus sign. */
  function ParseHex(s: string): Option<nat> {
    if s == "" || s == "+" then None else HexFrom(if s[0] == '+' then s[1..] else s, 0)
  }

  function SizeOf(line: string): Option<nat> { ParseHex(BeforeSemicolon(Trim(line))) }

  /** The index of the first CR LF, or |s|. */
  function FindCrLf(s: string): (k: nat)
    ensures k <= |s| && (k < |s| ==> k + 2 <= |s|)
  {
    if s == "" || (|s| >= 2 && s[0] == '\r' && s[1] == '\n') then 0 else 1 + FindCrLf(s[1..])
  }

  function StripCrLf(s: string): string {
    if |s| >= 2 && s[0] == '\r' && s[1] == '\n' then s[2..] else s
  }

  function Dechunk(rest: string): Result<string>
    decreases |rest|
  {
    var k := FindCrLf(rest);
    if k == |rest| then Ok("")
    else
      var size, tail := SizeOf(rest[..k]), rest[k + 2..];
      if size.None? then Err
      else if size.value == 0 then Ok("")
      else if |tail| < size.value then Err
      else
        var more := Dechunk(StripCrLf(tail[size.value..]));
        if more.Ok? then Ok(tail[..size.value] + more.value) else Err
  }

  /** The loop: the output grows and the remaining input strictly shrinks. */
  method DechunkLoop(body: string) returns (r: Result<string>)
    ensures r == Dechunk(body)
  {
    hide SizeOf, FindCrLf;
    var out, rest := "", body;
    assert Dechunk(body).Ok? ==> "" + Dechunk(body).value == Dechunk(body).value;
    while true
      invariant Dechunk(body) == Prefixed(out, Dechunk(rest))
      decreases |rest|
    {
      assert out + "" == out;
      var k := FindCrLf(rest);
      if k == |rest| { return Ok(out); }
      var size, tail := SizeOf(rest[..k]), rest[k + 2..];
      if size.None? { return Err; }
      if size.value == 0 { return Ok(out); }
      if |tail| < size.value { return Err; }
      ghost var more := Dechunk(StripCrLf(tail[size.value..]));
      assert more.Ok? ==> out + (tail[..size.value] + more.value) == (out + tail[..size.value]) + more.value;
      out := out + tail[..size.value];
      rest := StripCrLf(tail[size.value..]);
    }
  }

  ghost function Prefixed(out: string, r: Result<string>): Result<string> {
    if r.Ok? then Ok(out + r.value) else Err
  }

  // ---------------------------------------------------------------- the coding

  /** One chunk: its size as written, the chunk extensions, its data. */
  datatype Chunk = Chunk(size: string, ext: string, data: string)

  predicate IsHex(size: string, value: nat) {
    ParseHex(size) == Some(value) && forall i :: 0 <= i < |size| ==> HexDigit(size[i]).Some?
  }

  predicate AllSpace(s: string) { forall i :: 0 <= i < |s| ==> IsSpace(s[i]) }

  /** A size line: hexadecimal digits, then white space or extensions that start with a semicolon. */
  predicate LineOk(size: string, ext: string, value: nat) {
    IsHex(size, value) && (AllSpace(ext) || ext[0] == ';') && '\n' !in ext
  }

  predicate ChunkOk(c: Chunk) { c.data != "" && LineOk(c.size, c.ext, |c.data|) }

  predicate AllOk(chunks: seq<Chunk>) { forall i :: 0 <= i < |chunks| ==> ChunkOk(chunks[i]) }

  const CRLF: string := "\r\n"

  function Head(c: Chunk): string { c.size + c.ext + CRLF }

  function Encode(chunks: seq<Chunk>): string {
    if chunks == [] then "" else Head(chunks[0]) + (chunks[0].data + (CRLF + Encode(chunks[1..])))
  }

  function Payload(chunks: seq<Chunk>): string {
    if chunks == [] then "" else chunks[0].data + Payload(chunks[1..])
  }

  // ---------------------------------------------------------------- reading a size line

  lemma {:induction false} TrimKeepsFront(s: string, n: nat)
    requires 0 < n <= |s| && !IsSpace(s[0]) && !IsSpace(s[n - 1])
    ensures n <= |Trim(s)| && s[..n] == Trim(s)[..n] && Trim(s) <= s
    decreases |s|
  {
    assert TrimStart(s) == s;
    if IsSpace(s[|s| - 1]) {
      var t := s[..|s| - 1];
      assert n < |s| && TrimStart(t) == t;
      TrimKeepsFront(t, n);
    }
  }

  lemma {:induction false} BeforeSemicolonStops(front: string, rest: string)
    requires ';' !in front && (rest == "" || rest[0] == ';')
    ensures BeforeSemicolon(front + rest) == front
  {
    if front == "" {
      assert front + rest == rest;
    } else {
      assert (front + rest)[1..] == front[1..] + rest;
      BeforeSemicolonStops(front[1..], rest);
    }
  }

  lemma {:induction false} TrimDropsTail(s: string, gap: string)
    requires s != "" && !IsSpace(s[0]) && !IsSpace(s[|s| - 1]) && AllSpace(gap)
    ensures Trim(s + gap) == s
    decreases |gap|
  {
    var line := s + gap;
    assert TrimStart(line) == line && TrimStart(s) == s;
    if gap == "" {
      assert line == s;
    } else {
      var less := gap[..|gap| - 1];
      assert line[..|line| - 1] == s + less && IsSpace(line[|line| - 1]);
      assert TrimStart(s + less) == s + less;
      TrimDropsTail(s, less);
    }
  }

  lemma {:induction false} BadDigit(s: string, value: nat, i: nat)
    requires i < |s| && HexDigit(s[i]).None?
    ensures HexFrom(s, value).None?
    decreases |s|
  {
    if HexDigit(s[0]).Some? { BadDigit(s[1..], 16 * value + HexDigit(s[0]).value, i - 1); }
  }

  /** What precedes the first semicolon of a trimmed line. */
  lemma BeforeExtension(front: string, ext: string)
    requires front != "" && !IsSpace(front[0]) && ';' !in front && ext != "" && ext[0] == ';'
    ensures BeforeSemicolon(Trim(front + ext)) == front
  {
    var line, n := front + ext, |front| + 1;
    assert line[n - 1] == ';';
    TrimKeepsFront(line, n);
    var trimmed := Trim(line);
    assert trimmed == front + trimmed[|front|..] by { assert trimmed[..n][..|front|] == line[..|front|] == front; }
    assert trimmed[..n][|front|] == ';';
    BeforeSemicolonStops(front, trimmed[|front|..]);
  }

  /** A size line is read as its value exactly when no white space stands between the digits and an
      extension; section 7.1.1 of RFC 9112 allows such space, the decoder fails on it. */
  lemma SizeReadExactly(size: string, gap: string, ext: string, value: nat)
    requires IsHex(size, value) && AllSpace(gap) && (ext == "" || ext[0] == ';')
    ensures SizeOf(size + (gap + ext)) == if gap == "" || ext == "" then Some(value) else None
  {
    hide ParseHex, Trim, HexDigit;
    assert size != "" by { NoSize(); }
    DigitsArePlain(size);
    if ext == "" {
      assert size + (gap + ext) == size + gap;
      TrimDropsTail(size, gap);
      BeforeSemicolonStops(size, "");
      assert size + "" == size;
    } else {
      assert size + (gap + ext) == (size + gap) + ext;
      assert forall i :: 0 <= i < |size + gap| ==> (size + gap)[i] != ';';
      BeforeExtension(size + gap, ext);
      if gap == "" { assert size + gap == size; } else { GapIsNoDigit(size, gap); }
    }
  }

  lemma DigitsArePlain(size: string)
    requires forall i :: 0 <= i < |size| ==> HexDigit(size[i]).Some?
    ensures forall i :: 0 <= i < |size| ==> !IsSpace(size[i]) && size[i] != ';' && size[i] != '+'
  {
  }

  lemma GapIsNoDigit(size: string, gap: string)
    requires size != "" && HexDigit(size[0]).Some? && gap != "" && AllSpace(gap)
    ensures ParseHex(size + gap).None?
  {
    var s := size + gap;
    assert s[|size|] == gap[0];
    BadDigit(s, 0, |size|);
  }

  lemma SizeRead(size: string, ext: string, value: nat)
    requires LineOk(size, ext, value)
    ensures SizeOf(size + ext) == Some(value)
  {
    hide SizeOf, IsHex;
    if ext == "" || ext[0] == ';' {
      assert "" + ext == ext;
      SizeReadExactly(size, "", ext, value);
    } else {
      assert ext + "" == ext;
      SizeReadExactly(size, ext, "", value);
    }
  }

  lemma NoSize()
    ensures ParseHex("") == None
  {
  }

  /** A size line is found up to its CR LF, whatever follows. */
  lemma {:induction false} LineFound(line: string, rest: string)
    requires '\n' !in line
    ensures FindCrLf(line + CRLF + rest) == |line|
  {
    if line != "" {
      assert (line + CRLF + rest)[1..] == line[1..] + CRLF + rest;
      assert (line + CRLF + rest)[1] == if |line| > 1 then line[1] else '\r';
      LineFound(line[1..], rest);
    }
  }

  lemma {:induction false} LineNotFound(s: string)
    requires '\n' !in s
    ensures FindCrLf(s) == |s|
  {
    if s != "" { LineNotFound(s[1..]); }
  }

  lemma LineHasNoLf(size: string, ext: string, value: nat)
    requires LineOk(size, ext, value)
    ensures '\n' !in size + ext
  {
  }

  /** One step of the decoder on a well-formed size line. */
  lemma DechunkStep(size: string, ext: string, value: nat, tail: string)
    requires LineOk(size, ext, value)
    ensures Dechunk(size + ext + CRLF + tail) ==
            if value == 0 then Ok("")
            else if |tail| < value then Err
            else
              var more := Dechunk(StripCrLf(tail[value..]));
              if more.Ok? then Ok(tail[..value] + more.value) else Err
  {
    hide ParseHex, LineOk, SizeOf, FindCrLf;
    var line, s := size + ext, size + ext + CRLF + tail;
    LineHasNoLf(size, ext, value);
    LineFound(line, tail);
    SizeRead(size, ext, value);
    assert s[..|line|] == line && s[|line| + 2..] == tail;
  }

  /** Decoding inverts encoding for every list of chunks, however the payload was cut into them. */
  lemma {:induction false} DecodeInvertsEncode(chunks: seq<Chunk>, zero: string, ext: string, trailer: string)
    requires AllOk(chunks) && LineOk(zero, ext, 0)
    ensures Dechunk(Encode(chunks) + (zero + ext + CRLF + trailer)) == Ok(Payload(chunks))
  {
    hide Dechunk, LineOk;
    var last := zero + ext + CRLF + trailer;
    if chunks == [] {
      assert Encode(chunks) + last == last;
      DechunkStep(zero, ext, 0, trailer);
    } else {
      var c, more := chunks[0], Encode(chunks[1..]) + last;
      var tail := c.data + (CRLF + more);
      assert Encode(chunks) + last == c.size + c.ext + CRLF + tail;
      DechunkStep(c.size, c.ext, |c.data|, tail);
      assert tail[..|c.data|] == c.data && tail[|c.data|..] == CRLF + more;
      assert StripCrLf(CRLF + more) == more;
      DecodeInvertsEncode(chunks[1..], zero, ext, trailer);
    }
  }

  // ---------------------------------------------------------------- bodies cut short

  /** What is decoded from the first `cut` bytes of an encoding: an error exactly when the cut
      falls inside the data of a chunk, else the chunks received in full. */
  function CutResult(chunks: seq<Chunk>, cut: nat): Result<string> {
    if chunks == [] then Ok("")
    else
      var c := chunks[0];
      var dataAt, dataEnd := |Head(c)|, |Head(c)| + |c.data|;
      if cut < dataAt then Ok("")
      else if cut < dataEnd then Err
      else
        var more := CutResult(chunks[1..], if cut < dataEnd + 2 then 0 else cut - (dataEnd + 2));
        if more.Ok? then Ok(c.data + more.value) else Err
  }

  lemma CutAtZero(chunks: seq<Chunk>)
    ensures CutResult(chunks, 0) == Ok("")
  {
  }

  lemma NothingToDecode()
    ensures Dechunk("") == Ok("") && Dechunk("\r") == Ok("")
  {
    LineNotFound("\r");
  }

  /** The final chunk line and whatever follows it. */
  function Final(zero: string, ext: string, trailer: string): string { zero + ext + CRLF + trailer }

  /** The whole body, cut anywhere, the final chunk line and the trailer included. */
  lemma {:induction false} CutBodies(chunks: seq<Chunk>, zero: string, ext: string, trailer: string, cut: nat)
    requires AllOk(chunks) && LineOk(zero, ext, 0) && cut <= |Encode(chunks) + Final(zero, ext, trailer)|
    ensures Dechunk((Encode(chunks) + Final(zero, ext, trailer))[..cut]) == CutResult(chunks, cut)
  {
    hide Dechunk, LineOk, Final;
    var final := Final(zero, ext, trailer);
    var s := (Encode(chunks) + final)[..cut];
    NothingToDecode();
    if chunks == [] {
      assert Encode(chunks) + final == final;
      CutFinal(zero, ext, trailer, cut);
    } else {
      var c, rest := chunks[0], Encode(chunks[1..]) + final;
      var dataAt, dataEnd := |Head(c)|, |Head(c)| + |c.data|;
      assert Encode(chunks) + final == Head(c) + (c.data + (CRLF + rest));
      if cut < dataAt {
        assert s == Head(c)[..cut];
        CutLine(c.size, c.ext, |c.data|, cut);
      } else {
        var tail := (c.data + (CRLF + rest))[..cut - dataAt];
        assert s == c.size + c.ext + CRLF + tail;
        DechunkStep(c.size, c.ext, |c.data|, tail);
        if cut >= dataEnd {
          assert tail == c.data + (CRLF + rest)[..cut - dataEnd];
          assert tail[..|c.data|] == c.data && tail[|c.data|..] == (CRLF + rest)[..cut - dataEnd];
          if cut < dataEnd + 2 {
            CutAtZero(chunks[1..]);
            assert cut == dataEnd ==> tail[|c.data|..] == "";
            assert cut == dataEnd + 1 ==> tail[|c.data|..] == "\r";
          } else {
            var n := cut - (dataEnd + 2);
            assert tail[|c.data|..] == CRLF + rest[..n];
            assert StripCrLf(CRLF + rest[..n]) == rest[..n];
            CutBodies(chunks[1..], zero, ext, trailer, n);
          }
        }
      }
    }
  }

  lemma CutLine(size: string, ext: string, value: nat, cut: nat)
    requires LineOk(size, ext, value) && cut < |size + ext + CRLF|
    ensures Dechunk((size + ext + CRLF)[..cut]) == Ok("")
  {
    hide LineOk, SizeOf, FindCrLf;
    LineHasNoLf(size, ext, value);
    var line := size + ext + CRLF;
    var s := line[..cut];
    assert '\n' !in s by { assert line[..|line| - 1] == size + ext + "\r"; }
    LineNotFound(s);
  }

  lemma CutFinal(zero: string, ext: string, trailer: string, cut: nat)
    requires LineOk(zero, ext, 0) && cut <= |Final(zero, ext, trailer)|
    ensures Dechunk(Final(zero, ext, trailer)[..cut]) == Ok("")
  {
    hide Dechunk, LineOk;
    var line := zero + ext + CRLF;
    var s := Final(zero, ext, trailer)[..cut];
    if cut < |line| {
      assert s == line[..cut];
      CutLine(zero, ext, 0, cut);
    } else {
      assert s == zero + ext + CRLF + trailer[..cut - |line|];
      DechunkStep(zero, ext, 0, trailer[..cut - |line|]);
    }
  }

  lemma ZeroIsFinal()
    ensures LineOk("0", "", 0)
  {
  }

  /** A body that stops between two chunks is taken as complete: no final chunk is asked for. */
  lemma MissingFinalChunkIsAccepted(chunks: seq<Chunk>)
    requires AllOk(chunks)
    ensures Dechunk(Encode(chunks)) == Ok(Payload(chunks))
  {
    hide Dechunk, LineOk, Final;
    ZeroIsFinal();
    var cut := |Encode(chunks)|;
    CutBodies(chunks, "0", "", "", cut);
    assert (Encode(chunks) + Final("0", "", ""))[..cut] == Encode(chunks);
    FullCut(chunks);
  }

  lemma {:induction false} FullCut(chunks: seq<Chunk>)
    ensures CutResult(chunks, |Encode(chunks)|) == Ok(Payload(chunks))
  {
    if chunks != [] { FullCut(chunks[1..]); }
  }
}
