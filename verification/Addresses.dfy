/** The two wire forms of a network target (engine/src/addr.rs): the SOCKS address of section 5
    of RFC 1928 (type, address, port) and the port-first form (port, type, address). */
module Addresses {
  import opened Common

  /** A domain is the bytes of a Rust string. */
  datatype Host = Domain(name: Bytes) | V4(octets: Bytes) | V6(octets: Bytes)

  datatype NetAddr = NetAddr(host: Host, port: nat)

  /** The type bytes of a wire form. */
  datatype Codes = Codes(v4: byte, domain: byte, v6: byte)

  const SOCKS: Codes := Codes(1, 3, 4)
  const SING: Codes := Codes(1, 2, 3)

  predicate Continues(s: Bytes, i: nat, n: nat) {
    i + n <= |s| && forall k :: i <= k < i + n ==> 0x80 <= s[k] < 0xC0
  }

  /** Well-formed UTF-8. */
  predicate IsUtf8(s: Bytes) {
    if s == [] then true
    else if s[0] < 0x80 then IsUtf8(s[1..])
    else if 0xC2 <= s[0] < 0xE0 then Continues(s, 1, 1) && IsUtf8(s[2..])
    else if 0xE0 <= s[0] < 0xF0 then
      Continues(s, 1, 2) && (s[0] == 0xE0 ==> s[1] >= 0xA0) && (s[0] == 0xED ==> s[1] < 0xA0) && IsUtf8(s[3..])
    else if 0xF0 <= s[0] < 0xF5 then
      Continues(s, 1, 3) && (s[0] == 0xF0 ==> s[1] >= 0x90) && (s[0] == 0xF4 ==> s[1] < 0x90) && IsUtf8(s[4..])
    else false
  }

  function LowerByte(b: byte): byte { if 65 <= b <= 90 then b + 32 else b }

  function Lower(s: Bytes): Bytes { seq(|s|, i requires 0 <= i < |s| => LowerByte(s[i])) }

  predicate HostOk(h: Host) {
    match h
    case Domain(name) => IsUtf8(name)
    case V4(octets) => |octets| == 4
    case V6(octets) => |octets| == 16
  }

  predicate AddrOk(a: NetAddr) { HostOk(a.host) && a.port < 0x1_0000 }

  // ---------------------------------------------------------------- type and address

  function Clamp(n: nat): nat { if n < 255 then n else 255 }

  /** The type byte and the address; a domain longer than its length byte allows is cut. */
  function HostBytes(codes: Codes, h: Host): Bytes {
    match h
    case Domain(name) => [codes.domain, Clamp(|name|)] + name[..Clamp(|name|)]
    case V4(octets) => [codes.v4] + octets
    case V6(octets) => [codes.v6] + octets
  }

  /** Reading it back: the host and the number of bytes used. */
  function ReadHost(codes: Codes, data: Bytes): Result<(Host, nat)> {
    if data == [] then Err
    else if data[0] == codes.v4 then
      if |data| < 5 then Err else Ok((V4(data[1..5]), 5))
    else if data[0] == codes.v6 then
      if |data| < 17 then Err else Ok((V6(data[1..17]), 17))
    else if data[0] == codes.domain then
      if |data| < 2 then Err
      else
        var len: nat := data[1];
        if |data| < 2 + len then Err
        else
          var name := data[2..2 + len];
          if IsUtf8(name) then Ok((Domain(Lower(name)), 2 + len)) else Err
    else Err
  }

  // ---------------------------------------------------------------- the two wire forms

  function SocksBytes(a: NetAddr): Bytes { HostBytes(SOCKS, a.host) + Be16(a.port) }

  function PortFirstBytes(a: NetAddr): Bytes { Be16(a.port) + HostBytes(SING, a.host) }

  /** `decode_socks_addr`: the address and the number of bytes consumed. */
  function DecodeSocks(data: Bytes): Result<(NetAddr, nat)> {
    var host := ReadHost(SOCKS, data);
    if host.Err? then Err
    else
      var off := host.value.1;
      if |data| < off + 2 then Err
      else Ok((NetAddr(host.value.0, FromBe16(data[off], data[off + 1])), off + 2))
  }

  /** `decode_port_first_addr`. */
  function DecodePortFirst(data: Bytes): Result<(NetAddr, nat)> {
    if |data| < 3 then Err
    else
      var host := ReadHost(SING, data[2..]);
      if host.Err? then Err
      else Ok((NetAddr(host.value.0, FromBe16(data[0], data[1])), 2 + host.value.1))
  }

  class ByteBuffer {
    var data: Bytes

    constructor ()
      ensures data == []
    {
      data := [];
    }

    method Push(b: byte)
      modifies this
      ensures data == old(data) + [b]
    {
      data := data + [b];
    }

    method Extend(bytes: Bytes)
      modifies this
      ensures data == old(data) + bytes
    {
      data := data + bytes;
    }
  }

  method PushHost(buf: ByteBuffer, codes: Codes, host: Host)
    modifies buf
    ensures buf.data == old(buf.data) + HostBytes(codes, host)
  {
    match host
    case Domain(name) =>
      var len := Clamp(|name|);
      buf.Push(codes.domain);
      buf.Push(len);
      buf.Extend(name[..len]);
    case V4(octets) =>
      buf.Push(codes.v4);
      buf.Extend(octets);
    case V6(octets) =>
      buf.Push(codes.v6);
      buf.Extend(octets);
  }

  /** `encode_socks_addr`. */
  method EncodeSocks(buf: ByteBuffer, a: NetAddr)
    modifies buf
    ensures buf.data == old(buf.data) + SocksBytes(a)
  {
    PushHost(buf, SOCKS, a.host);
    buf.Extend(Be16(a.port));
    assert buf.data == old(buf.data) + SocksBytes(a);
  }

  /** `encode_port_first_addr`. */
  method EncodePortFirst(buf: ByteBuffer, a: NetAddr)
    modifies buf
    ensures buf.data == old(buf.data) + PortFirstBytes(a)
  {
    buf.Extend(Be16(a.port));
    PushHost(buf, SING, a.host);
    assert buf.data == old(buf.data) + PortFirstBytes(a);
  }

  // ---------------------------------------------------------------- round trips

  predicate CodesOk(codes: Codes) { codes.v4 != codes.domain && codes.v4 != codes.v6 && codes.domain != codes.v6 }

  /** The host as the other side will know it: domains in lower case. */
  function Received(h: Host): Host { if h.Domain? then Domain(Lower(h.name)) else h }

  /** Sent unchanged: not a domain, or a lower-case domain that fits its length byte. */
  predicate Canonical(h: Host) { h.Domain? ==> |h.name| <= 255 && Lower(h.name) == h.name }

  lemma ReadWritten(codes: Codes, h: Host, rest: Bytes)
    requires CodesOk(codes) && HostOk(h) && (h.Domain? ==> |h.name| <= 255)
    ensures ReadHost(codes, HostBytes(codes, h) + rest) == Ok((Received(h), |HostBytes(codes, h)|))
  {
    hide IsUtf8, Lower;
    var data := HostBytes(codes, h) + rest;
    match h
    case Domain(name) =>
      assert name[..|name|] == name;
      assert data[1] == |name| && data[2..2 + |name|] == name;
    case V4(octets) => assert data[1..5] == octets;
    case V6(octets) => assert data[1..17] == octets;
  }

  lemma ReadCutDomain(codes: Codes, h: Host, rest: Bytes)
    requires CodesOk(codes) && h.Domain? && |h.name| > 255
    ensures var r := ReadHost(codes, HostBytes(codes, h) + rest);
            r.Ok? ==> r.value.0.Domain? && |r.value.0.name| == 255
  {
    hide IsUtf8;
    var data := HostBytes(codes, h) + rest;
    assert data[1] == 255;
  }

  lemma PrefixUnreadable(codes: Codes, h: Host, cut: nat)
    requires CodesOk(codes) && HostOk(h) && cut < |HostBytes(codes, h)|
    ensures ReadHost(codes, HostBytes(codes, h)[..cut]).Err?
  {
    hide IsUtf8, Lower;
  }

  lemma PortBack(n: nat)
    requires n < 0x1_0000
    ensures |Be16(n)| == 2 && FromBe16(Be16(n)[0], Be16(n)[1]) == n
  {
  }

  /** The wire forms, byte by byte: section 5 of RFC 1928 has types 1, 3 and 4 before the host and the
      port behind it; the port-first form has types 1, 2 and 3 and the port in front. */
  lemma WireForms(port: nat, v4: Bytes, v6: Bytes, name: Bytes)
    requires port < 0x1_0000 && |name| <= 255
    ensures var p := [port / 256, port % 256];
            && SocksBytes(NetAddr(V4(v4), port)) == [1] + v4 + p
            && SocksBytes(NetAddr(V6(v6), port)) == [4] + v6 + p
            && SocksBytes(NetAddr(Domain(name), port)) == [3, |name|] + name + p
            && PortFirstBytes(NetAddr(V4(v4), port)) == p + ([1] + v4)
            && PortFirstBytes(NetAddr(V6(v6), port)) == p + ([3] + v6)
            && PortFirstBytes(NetAddr(Domain(name), port)) == p + ([2, |name|] + name)
  {
    assert Clamp(|name|) == |name| && name[..|name|] == name;
    assert (port / 256) % 256 == port / 256;
  }

  /** A decoded host takes back its own bytes, a domain in lower case; other type bytes are refused. */
  lemma ReadHostExactly(codes: Codes, data: Bytes)
    requires codes.v4 != codes.v6 && codes.v4 != codes.domain && codes.v6 != codes.domain
    ensures ReadHost(codes, data).Ok? ==>
              var (host, n) := ReadHost(codes, data).value;
              && 2 <= n <= |data| && data[0] in [codes.v4, codes.v6, codes.domain]
              && HostBytes(codes, host) == (if host.Domain? then data[..2] + Lower(data[2..n]) else data[..n])
  {
    if ReadHost(codes, data).Ok? {
      var (host, n) := ReadHost(codes, data).value;
      if host.Domain? {
        var len: nat := data[1];
        assert |Lower(data[2..n])| == len && Clamp(len) == len && host.name[..len] == host.name;
      } else {
        assert data[..n] == [data[0]] + data[1..n];
      }
    }
  }

  lemma PortBytes(hi: byte, lo: byte)
    ensures Be16(FromBe16(hi, lo)) == [hi, lo]
  {
  }

  /** Whatever decodes is the wire form of what it decodes to, up to the case of a domain: the
      decoders accept nothing else and drop no byte. */
  lemma DecodedIsEncoded(data: Bytes)
    ensures DecodeSocks(data).Ok? ==>
              var (a, n) := DecodeSocks(data).value;
              && n <= |data| && |SocksBytes(a)| == n
              && var host := if a.host.Domain? then data[..2] + Lower(data[2..n - 2]) else data[..n - 2];
                 SocksBytes(a) == host + data[n - 2..n]
    ensures DecodePortFirst(data).Ok? ==>
              var (a, n) := DecodePortFirst(data).value;
              && n <= |data| && |PortFirstBytes(a)| == n
              && var host := if a.host.Domain? then data[2..4] + Lower(data[4..n]) else data[2..n];
                 PortFirstBytes(a) == data[..2] + host
  {
    hide ReadHost, HostBytes, Be16, FromBe16;
    if DecodeSocks(data).Ok? {
      var (a, n) := DecodeSocks(data).value;
      ReadHostExactly(SOCKS, data);
      PortBytes(data[n - 2], data[n - 1]);
      assert data[n - 2..n] == [data[n - 2], data[n - 1]];
    }
    if DecodePortFirst(data).Ok? {
      var (a, n) := DecodePortFirst(data).value;
      var rest := data[2..];
      ReadHostExactly(SING, rest);
      PortBytes(data[0], data[1]);
      assert data[..2] == [data[0], data[1]] && rest[..2] == data[2..4] && rest[..n - 2] == data[2..n];
      assert rest[2..n - 2] == data[4..n];
    }
  }

  /** SOCKS: with any bytes behind it, an address decodes to itself at exactly its own length if
      and only if its host is canonical; an oversized or mixed-case domain never does. */
  lemma SocksRoundTripExactly(a: NetAddr, rest: Bytes)
    requires AddrOk(a)
    ensures DecodeSocks(SocksBytes(a) + rest) == Ok((a, |SocksBytes(a)|)) <==> Canonical(a.host)
    ensures (a.host.Domain? ==> |a.host.name| <= 255) ==>
              DecodeSocks(SocksBytes(a) + rest) == Ok((NetAddr(Received(a.host), a.port), |SocksBytes(a)|))
  {
    hide ReadHost, HostBytes, Lower, Be16, HostOk;
    var host := HostBytes(SOCKS, a.host);
    var data := SocksBytes(a) + rest;
    assert data == host + (Be16(a.port) + rest);
    PortBack(a.port);
    if a.host.Domain? && |a.host.name| > 255 {
      ReadCutDomain(SOCKS, a.host, Be16(a.port) + rest);
    } else {
      ReadWritten(SOCKS, a.host, Be16(a.port) + rest);
      assert data[|host|] == Be16(a.port)[0] && data[|host| + 1] == Be16(a.port)[1];
    }
  }

  lemma PortFirstRoundTripExactly(a: NetAddr, rest: Bytes)
    requires AddrOk(a)
    ensures DecodePortFirst(PortFirstBytes(a) + rest) == Ok((a, |PortFirstBytes(a)|)) <==> Canonical(a.host)
    ensures (a.host.Domain? ==> |a.host.name| <= 255) ==>
              DecodePortFirst(PortFirstBytes(a) + rest) == Ok((NetAddr(Received(a.host), a.port), |PortFirstBytes(a)|))
  {
    hide ReadHost, HostBytes, Lower, Be16, HostOk;
    var host := HostBytes(SING, a.host);
    var data := PortFirstBytes(a) + rest;
    PortBack(a.port);
    assert data == Be16(a.port) + (host + rest) && data[2..] == host + rest;
    HostNotEmpty(SING, a.host);
    if a.host.Domain? && |a.host.name| > 255 {
      ReadCutDomain(SING, a.host, rest);
    } else {
      ReadWritten(SING, a.host, rest);
    }
  }

  lemma HostNotEmpty(codes: Codes, h: Host)
    ensures HostBytes(codes, h) != []
  {
  }

  /** Every strict prefix of an encoded address is rejected, in both forms. */
  lemma StrictPrefixesRejected(a: NetAddr, cut: nat)
    requires AddrOk(a)
    ensures cut < |SocksBytes(a)| ==> DecodeSocks(SocksBytes(a)[..cut]).Err?
    ensures cut < |PortFirstBytes(a)| ==> DecodePortFirst(PortFirstBytes(a)[..cut]).Err?
  {
    hide ReadHost, HostBytes, Lower, Be16;
    PortBack(a.port);
    var s, f := HostBytes(SOCKS, a.host), HostBytes(SING, a.host);
    if cut < |s| {
      assert SocksBytes(a)[..cut] == s[..cut];
      PrefixUnreadable(SOCKS, a.host, cut);
    } else if cut < |SocksBytes(a)| {
      assert SocksBytes(a)[..cut] == s + Be16(a.port)[..cut - |s|];
      SocksPortMissing(a, Be16(a.port)[..cut - |s|]);
    }
    if 3 <= cut < |PortFirstBytes(a)| {
      assert PortFirstBytes(a)[..cut][2..] == f[..cut - 2];
      PrefixUnreadable(SING, a.host, cut - 2);
    }
  }

  lemma SocksPortMissing(a: NetAddr, part: Bytes)
    requires AddrOk(a) && |part| < 2
    ensures DecodeSocks(HostBytes(SOCKS, a.host) + part).Err?
  {
    hide IsUtf8, Lower;
    var data := HostBytes(SOCKS, a.host) + part;
    match a.host
    case Domain(name) => assert data[1] == Clamp(|name|);
    case _ =>
  }

  // ---------------------------------------------------------------- streams of addresses

  function SocksStream(addrs: seq<NetAddr>): Bytes {
    if addrs == [] then [] else SocksBytes(addrs[0]) + SocksStream(addrs[1..])
  }

  function DecodeSocksStream(data: Bytes): Result<seq<NetAddr>>
    decreases |data|
  {
    if data == [] then Ok([])
    else
      var first := DecodeSocks(data);
      if first.Err? || first.value.1 > |data| || first.value.1 == 0 then Err
      else
        var more := DecodeSocksStream(data[first.value.1..]);
        if more.Err? then Err else Ok([first.value.0] + more.value)
  }

  function PortFirstStream(addrs: seq<NetAddr>): Bytes {
    if addrs == [] then [] else PortFirstBytes(addrs[0]) + PortFirstStream(addrs[1..])
  }

  function DecodePortFirstStream(data: Bytes): Result<seq<NetAddr>>
    decreases |data|
  {
    if data == [] then Ok([])
    else
      var first := DecodePortFirst(data);
      if first.Err? || first.value.1 > |data| || first.value.1 == 0 then Err
      else
        var more := DecodePortFirstStream(data[first.value.1..]);
        if more.Err? then Err else Ok([first.value.0] + more.value)
  }

  predicate AllCanonical(addrs: seq<NetAddr>) {
    forall i :: 0 <= i < |addrs| ==> AddrOk(addrs[i]) && Canonical(addrs[i].host)
  }

  lemma NotEmpty(a: NetAddr)
    ensures |SocksBytes(a)| >= 2 && |PortFirstBytes(a)| >= 2
  {
  }

  /** Concatenated addresses parse back to exactly the addresses that were written. */
  lemma {:induction false} SocksStreamParsesBack(addrs: seq<NetAddr>)
    requires AllCanonical(addrs)
    ensures DecodeSocksStream(SocksStream(addrs)) == Ok(addrs)
  {
    hide DecodeSocks, Canonical, AddrOk, SocksBytes;
    if addrs != [] {
      SocksRoundTripExactly(addrs[0], SocksStream(addrs[1..]));
      var n := |SocksBytes(addrs[0])|;
      NotEmpty(addrs[0]);
      assert 2 <= n <= |SocksStream(addrs)| && AddrOk(addrs[0]) && Canonical(addrs[0].host);
      assert SocksStream(addrs)[|SocksBytes(addrs[0])|..] == SocksStream(addrs[1..]);
      SocksStreamParsesBack(addrs[1..]);
      assert [addrs[0]] + addrs[1..] == addrs;
    }
  }

  lemma {:induction false} PortFirstStreamParsesBack(addrs: seq<NetAddr>)
    requires AllCanonical(addrs)
    ensures DecodePortFirstStream(PortFirstStream(addrs)) == Ok(addrs)
  {
    hide DecodePortFirst, Canonical, AddrOk, PortFirstBytes;
    if addrs != [] {
      PortFirstRoundTripExactly(addrs[0], PortFirstStream(addrs[1..]));
      var n := |PortFirstBytes(addrs[0])|;
      NotEmpty(addrs[0]);
      assert 2 <= n <= |PortFirstStream(addrs)| && AddrOk(addrs[0]) && Canonical(addrs[0].host);
      assert PortFirstStream(addrs)[|PortFirstBytes(addrs[0])|..] == PortFirstStream(addrs[1..]);
      PortFirstStreamParsesBack(addrs[1..]);
      assert [addrs[0]] + addrs[1..] == addrs;
    }
  }

  /** Hence different lists of addresses never share a wire form. */
  lemma StreamsAreInjective(a: seq<NetAddr>, b: seq<NetAddr>)
    requires AllCanonical(a) && AllCanonical(b)
    ensures SocksStream(a) == SocksStream(b) <==> a == b
    ensures PortFirstStream(a) == PortFirstStream(b) <==> a == b
  {
    SocksStreamParsesBack(a);
    SocksStreamParsesBack(b);
    PortFirstStreamParsesBack(a);
    PortFirstStreamParsesBack(b);
  }
}
