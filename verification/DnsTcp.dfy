/** The DNS-over-TCP server loop (engine/src/app.rs): two bytes tell an HTTP request from a
    length-framed query (section 4.2.2 of RFC 1035), query after query. */
module DnsTcp {
  import opened Common

  /** The resolver's answer to the n-th query, and whether the n-th write succeeds. */
  datatype Env = Env(answer: (nat, Bytes) -> Bytes, writes: nat -> bool)

  datatype End = Closed | HandedToDoh(prefix: Bytes, rest: Bytes)

  datatype Served = Served(output: Bytes, end: End)

  /** GE, PO, PU, DE, HE, OP. */
  predicate IsHttpPrefix(a: byte, b: byte) {
    (a, b) in [(71, 69), (80, 79), (80, 85), (68, 69), (72, 69), (79, 80)]
  }

  /** A framed message; the length field keeps the low 16 bits. */
  function Frame(message: Bytes): Bytes { Be16(|message|) + message }

  function Frames(messages: seq<Bytes>): Bytes {
    if messages == [] then [] else Frame(messages[0]) + Frames(messages[1..])
  }

  /** What the connection does with the bytes it will receive, from query number `n` on. */
  function Serve(env: Env, n: nat, input: Bytes): Served
    decreases |input|
  {
    if |input| < 2 then Served([], Closed)
    else if IsHttpPrefix(input[0], input[1]) then Served([], HandedToDoh(input[..2], input[2..]))
    else
      var len := FromBe16(input[0], input[1]);
      if !(12 <= len <= 4096) || |input| < 2 + len then Served([], Closed)
      else
        var answer := env.answer(n, input[2..2 + len]);
        if answer == [] || !env.writes(n) then Served([], Closed)
        else
          var more := Serve(env, n + 1, input[2 + len..]);
          Served(Frame(answer) + more.output, more.end)
  }

  /** One turn of the loop, seen from its two prefix bytes. */
  lemma ServeTurn(env: Env, n: nat, pre: Bytes, rest: Bytes)
    requires |pre| == 2
    ensures Serve(env, n, pre + rest) ==
            if IsHttpPrefix(pre[0], pre[1]) then Served([], HandedToDoh(pre, rest))
            else
              var len := FromBe16(pre[0], pre[1]);
              if !(12 <= len <= 4096) || |rest| < len then Served([], Closed)
              else
                var answer := env.answer(n, rest[..len]);
                if answer == [] || !env.writes(n) then Served([], Closed)
                else
                  var more := Serve(env, n + 1, rest[len..]);
                  Served(Frame(answer) + more.output, more.end)
  {
    hide IsHttpPrefix, FromBe16, Frame;
    var input, len := pre + rest, FromBe16(pre[0], pre[1]);
    assert input[..2] == pre && input[2..] == rest;
    if len <= |rest| { assert input[2..2 + len] == rest[..len] && input[2 + len..] == rest[len..]; }
  }

  lemma ServeTooShort(env: Env, n: nat, input: Bytes)
    requires |input| < 2
    ensures Serve(env, n, input) == Served([], Closed)
  {
  }

  ghost function After(output: Bytes, s: Served): Served { Served(output + s.output, s.end) }

  /** `serve_dns_tcp`. */
  method ServeConnection(env: Env, input: Bytes) returns (output: Bytes, end: End)
    ensures Served(output, end) == Serve(env, 0, input)
  {
    hide Serve, IsHttpPrefix, FromBe16, Frame;
    output, end := [], Closed;
    var rest, n := input, 0;
    if |rest| < 2 {
      ServeTooShort(env, n, rest);
      return;
    }
    var pre := rest[..2];
    rest := rest[2..];
    assert pre + rest == input;
    assert [] + Serve(env, 0, input).output == Serve(env, 0, input).output;
    while true
      invariant |pre| == 2 && end == Closed
      invariant Serve(env, 0, input) == After(output, Serve(env, n, pre + rest))
      decreases |rest|
    {
      assert output + [] == output;
      ServeTurn(env, n, pre, rest);
      if IsHttpPrefix(pre[0], pre[1]) {
        end := HandedToDoh(pre, rest);
        return;
      }
      var len := FromBe16(pre[0], pre[1]);
      if !(12 <= len <= 4096) { return; }
      if |rest| < len { return; }
      var answer := env.answer(n, rest[..len]);
      if answer == [] { return; }
      if !env.writes(n) { return; }
      ghost var more := Serve(env, n + 1, rest[len..]);
      assert output + (Frame(answer) + more.output) == (output + Frame(answer)) + more.output;
      output := output + Frame(answer);
      n := n + 1;
      rest := rest[len..];
      if |rest| < 2 {
        ServeTooShort(env, n, rest);
        assert output + [] == output;
        return;
      }
      assert rest == rest[..2] + rest[2..];
      pre, rest := rest[..2], rest[2..];
    }
  }

  // ---------------------------------------------------------------- clients that frame queries

  predicate LegalQuery(q: Bytes) { 12 <= |q| <= 4096 }

  /** No legal length prefix is ever taken for an HTTP method. */
  lemma LegalLengthIsNotHttp(n: nat)
    requires 12 <= n <= 4096
    ensures !IsHttpPrefix(Be16(n)[0], Be16(n)[1])
    ensures FromBe16(Be16(n)[0], Be16(n)[1]) == n
  {
    assert Be16(n)[0] <= 16;
  }

  /** The answers the client gets: up to the first empty one or the first failed write. */
  function Answers(env: Env, n: nat, queries: seq<Bytes>): seq<Bytes>
    decreases |queries|
  {
    if queries == [] || env.answer(n, queries[0]) == [] || !env.writes(n) then []
    else [env.answer(n, queries[0])] + Answers(env, n + 1, queries[1..])
  }

  /** A client that sends framed queries and then at most one stray byte gets the framed answers,
      in order, up to the first empty one. */
  lemma {:induction false} FramedQueriesGetFramedAnswers(env: Env, n: nat, queries: seq<Bytes>, stray: Bytes)
    requires (forall i :: 0 <= i < |queries| ==> LegalQuery(queries[i])) && |stray| < 2
    ensures Serve(env, n, Frames(queries) + stray) == Served(Frames(Answers(env, n, queries)), Closed)
    decreases |queries|
  {
    hide Serve, IsHttpPrefix, FromBe16, Be16;
    if queries == [] {
      assert Frames(queries) + stray == stray;
      ServeTooShort(env, n, stray);
    } else {
      var q, rest := queries[0], Frames(queries[1..]) + stray;
      LegalLengthIsNotHttp(|q|);
      assert |Be16(|q|)| == 2 by { TwoBytes(|q|); }
      ServeTurn(env, n, Be16(|q|), q + rest);
      assert Frames(queries) + stray == Be16(|q|) + (q + rest);
      assert (q + rest)[..|q|] == q && (q + rest)[|q|..] == rest;
      FramedQueriesGetFramedAnswers(env, n + 1, queries[1..], stray);
      var answers := Answers(env, n, queries);
      assert answers != [] ==> answers[1..] == Answers(env, n + 1, queries[1..]);
    }
  }

  /** Framed queries that are all answered are answered in order, and the connection then does with
      whatever follows exactly what it would have done with it alone. */
  lemma {:induction false} QueriesThenMore(env: Env, n: nat, queries: seq<Bytes>, more: Bytes)
    requires forall i :: 0 <= i < |queries| ==> LegalQuery(queries[i])
    requires |Answers(env, n, queries)| == |queries|
    ensures Serve(env, n, Frames(queries) + more) ==
            After(Frames(Answers(env, n, queries)), Serve(env, n + |queries|, more))
    decreases |queries|
  {
    hide Serve, IsHttpPrefix, FromBe16, Be16;
    if queries == [] {
      assert Frames(queries) + more == more;
      assert [] + Serve(env, n, more).output == Serve(env, n, more).output;
    } else {
      var q, rest := queries[0], Frames(queries[1..]) + more;
      LegalLengthIsNotHttp(|q|);
      assert |Be16(|q|)| == 2 by { TwoBytes(|q|); }
      ServeTurn(env, n, Be16(|q|), q + rest);
      assert Frames(queries) + more == Be16(|q|) + (q + rest);
      assert (q + rest)[..|q|] == q && (q + rest)[|q|..] == rest;
      var answers, end := Answers(env, n, queries), Serve(env, n + |queries|, more);
      assert answers[1..] == Answers(env, n + 1, queries[1..]);
      QueriesThenMore(env, n + 1, queries[1..], more);
      assert Frame(answers[0]) + (Frames(answers[1..]) + end.output) == Frames(answers) + end.output;
    }
  }

  /** The bytes of an ASCII text. */
  function Ascii(s: string): Bytes { seq(|s|, i requires 0 <= i < |s| => s[i] as nat % 256) }

  const METHODS: seq<string> := ["GET", "POST", "PUT", "DELETE", "HEAD", "OPTIONS"]

  lemma MethodIsHttp(verb: string)
    requires verb in METHODS
    ensures |Ascii(verb)| >= 2 && IsHttpPrefix(Ascii(verb)[0], Ascii(verb)[1])
  {
    var i :| 0 <= i < |METHODS| && METHODS[i] == verb;
    assert i == 0 || i == 1 || i == 2 || i == 3 || i == 4 || i == 5;
  }

  /** After any answered queries, an HTTP request of any of the six methods is handed to the DoH
      server with every byte of it, behind the answers. */
  lemma HttpIsHandedOver(env: Env, queries: seq<Bytes>, verb: string, request: Bytes)
    requires forall i :: 0 <= i < |queries| ==> LegalQuery(queries[i])
    requires |Answers(env, 0, queries)| == |queries| && verb in METHODS
    ensures var served := Serve(env, 0, Frames(queries) + (Ascii(verb) + request));
            && served.output == Frames(Answers(env, 0, queries)) && served.end.HandedToDoh?
            && served.end.prefix + served.end.rest == Ascii(verb) + request && |served.end.prefix| == 2
  {
    hide Serve, IsHttpPrefix, Frames, Answers, Ascii;
    var input := Ascii(verb) + request;
    MethodIsHttp(verb);
    QueriesThenMore(env, 0, queries, input);
    assert input[..2] + input[2..] == input && input[0] == Ascii(verb)[0] && input[1] == Ascii(verb)[1];
    ServeTurn(env, |queries|, input[..2], input[2..]);
    assert Frames(Answers(env, 0, queries)) + [] == Frames(Answers(env, 0, queries));
  }

  /** After any answered queries, a length outside 12 to 4096 that no HTTP method begins with closes
      the connection behind the answers. */
  lemma IllegalLengthCloses(env: Env, queries: seq<Bytes>, hi: byte, lo: byte, rest: Bytes)
    requires forall i :: 0 <= i < |queries| ==> LegalQuery(queries[i])
    requires |Answers(env, 0, queries)| == |queries|
    requires !(12 <= 256 * hi + lo <= 4096)
    requires forall verb :: verb in METHODS ==> Ascii(verb)[..2] != [hi, lo]
    ensures Serve(env, 0, Frames(queries) + ([hi, lo] + rest)) == Served(Frames(Answers(env, 0, queries)), Closed)
  {
    hide Serve, Frames, Answers;
    NoMethodNoHttp(hi, lo);
    QueriesThenMore(env, 0, queries, [hi, lo] + rest);
    ServeTurn(env, |queries|, [hi, lo], rest);
    assert Frames(Answers(env, 0, queries)) + [] == Frames(Answers(env, 0, queries));
  }

  lemma AsciiStart(verb: string, a: char, b: char)
    requires |verb| >= 2 && verb[0] == a && verb[1] == b && a < 128 as char && b < 128 as char
    ensures Ascii(verb)[..2] == [a as nat, b as nat]
  {
  }

  lemma NoMethodNoHttp(hi: byte, lo: byte)
    requires forall verb :: verb in METHODS ==> Ascii(verb)[..2] != [hi, lo]
    ensures !IsHttpPrefix(hi, lo)
  {
    hide Ascii;
    assert forall i :: 0 <= i < 6 ==> METHODS[i] in METHODS;
    AsciiStart(METHODS[0], 'G', 'E');
    AsciiStart(METHODS[1], 'P', 'O');
    AsciiStart(METHODS[2], 'P', 'U');
    AsciiStart(METHODS[3], 'D', 'E');
    AsciiStart(METHODS[4], 'H', 'E');
    AsciiStart(METHODS[5], 'O', 'P');
  }

  lemma TwoBytes(n: nat)
    ensures |Be16(n)| == 2
  {
  }

  /** The client's side: cutting a byte stream back into messages. */
  function Deframe(s: Bytes): seq<Bytes>
    decreases |s|
  {
    if |s| < 2 || |s| < 2 + FromBe16(s[0], s[1]) then []
    else
      var len := FromBe16(s[0], s[1]);
      [s[2..2 + len]] + Deframe(s[2 + len..])
  }

  lemma Be16RoundTrip(n: nat)
    requires n <= 65535
    ensures |Be16(n)| == 2 && FromBe16(Be16(n)[0], Be16(n)[1]) == n
  {
  }

  lemma DeframeOne(m: Bytes, rest: Bytes)
    requires |m| <= 65535
    ensures Deframe(Frame(m) + rest) == [m] + Deframe(rest)
  {
    hide Be16, FromBe16;
    Be16RoundTrip(|m|);
    var s := Frame(m) + rest;
    assert s[0] == Be16(|m|)[0] && s[1] == Be16(|m|)[1];
    assert s[2..2 + |m|] == m && s[2 + |m|..] == rest;
  }

  lemma {:induction false} DeframeInvertsFrames(messages: seq<Bytes>)
    requires forall i :: 0 <= i < |messages| ==> |messages[i]| <= 65535
    ensures Deframe(Frames(messages)) == messages
  {
    hide Frame;
    if messages != [] {
      DeframeOne(messages[0], Frames(messages[1..]));
      DeframeInvertsFrames(messages[1..]);
    }
  }

  predicate AllFit(messages: seq<Bytes>) { forall i :: 0 <= i < |messages| ==> |messages[i]| <= 65535 }

  lemma FirstTooLong(m: Bytes, rest: Bytes)
    requires |m| > 65535
    ensures var got := Deframe(Frame(m) + rest); got == [] || |got[0]| != |m|
  {
    var s := Frame(m) + rest;
    assert FromBe16(s[0], s[1]) == |m| % 65536;
  }

  /** Framed messages are read back if and only if each of them fits its length field. */
  lemma {:induction false} FramesReadBackExactly(messages: seq<Bytes>)
    ensures Deframe(Frames(messages)) == messages <==> AllFit(messages)
  {
    hide Frame, Deframe;
    if AllFit(messages) {
      DeframeInvertsFrames(messages);
    } else {
      var m, rest := messages[0], messages[1..];
      assert messages == [m] + rest;
      if |m| > 65535 {
        FirstTooLong(m, Frames(rest));
      } else {
        DeframeOne(m, Frames(rest));
        FramesReadBackExactly(rest);
        assert ([m] + Deframe(Frames(rest)))[1..] == Deframe(Frames(rest));
      }
    }
  }

  /** End to end: the client reads back exactly the answers if and only if each answer it was sent
      fits its length field. */
  lemma ClientReadsAnswersExactly(env: Env, queries: seq<Bytes>)
    requires forall i :: 0 <= i < |queries| ==> LegalQuery(queries[i])
    ensures Deframe(Serve(env, 0, Frames(queries)).output) == Answers(env, 0, queries) <==>
            AllFit(Answers(env, 0, queries))
  {
    hide Deframe, Serve, AllFit, Answers;
    assert Frames(queries) + [] == Frames(queries);
    FramedQueriesGetFramedAnswers(env, 0, queries, []);
    FramesReadBackExactly(Answers(env, 0, queries));
  }

  /** A message survives framing exactly when it is at most 65535 bytes long. */
  lemma FrameFitsExactly(m: Bytes)
    ensures Deframe(Frame(m)) == [m] <==> |m| <= 65535
  {
    var s, len := Frame(m), |m| % 65536;
    assert s[2..] == m;
    assert FromBe16(s[0], s[1]) == len;
    if |m| <= 65535 {
      assert s[2..2 + len] == m && s[2 + len..] == [] && Deframe([]) == [];
    } else {
      assert |Deframe(s)[0]| == len;
    }
  }
}
