/** The kernel-request listener that keeps the application private to the
    local computer and the local network. For every top-level request it
    decides from the server parameters whether the client may proceed; a
    refused client gets a fixed 403 response and no later listener runs. */
module Firewall {
  import opened Php
  import opened IPv4

  const ClientIpHeader: string := "HTTP_CLIENT_IP"
  const ForwardedForHeader: string := "HTTP_X_FORWARDED_FOR"
  const RemoteAddr: string := "REMOTE_ADDR"

  /** The loopback spellings accepted verbatim. */
  const LoopbackAddresses: seq<string> := ["127.0.0.1", "fe80::1", "::1"]

  /** The one IPv6 prefix the IPv6 rule refuses. */
  const UniqueLocalPrefix: string := "fc00::"

  const DeniedMessage: string := "You are not allowed to access this application."
  const HttpForbidden: int := 403

  /** The bounds of the three private blocks, written as the dotted quads the
      listener passes to ip2long. */
  const Net10Low: Octets := Octets(10, 0, 0, 0)
  const Net10High: Octets := Octets(10, 255, 255, 255)
  const Net172Low: Octets := Octets(172, 16, 0, 0)
  const Net172High: Octets := Octets(172, 31, 255, 255)
  const Net192Low: Octets := Octets(192, 168, 0, 0)
  const Net192High: Octets := Octets(192, 168, 255, 255)

  /** The private-use blocks of section 3 of RFC 1918, in prefix form:
      10/8, 172.16/12 and 192.168/16. */
  predicate IsPrivateBlock(q: Octets)
  {
    q.a == 10 || (q.a == 172 && 16 <= q.b <= 31) || (q.a == 192 && q.b == 168)
  }

  /** isLocalHost: exact membership in the three loopback spellings. */
  function IsLocalHost(addr: string): (r: bool)
    ensures r <==> addr == "127.0.0.1" || addr == "fe80::1" || addr == "::1"
  {
    addr in LoopbackAddresses
  }

  /** isLocalNetwork: an address with a colon is IPv6 and is local unless it
      starts with "fc00::"; any other address must parse with ip2long and lie
      inside one of the three private ranges. */
  function IsLocalNetwork(addr: string): (r: bool)
    ensures ':' in addr ==> (r <==> !(UniqueLocalPrefix <= addr))
    ensures ':' !in addr ==> (r <==> ParseOctets(addr).Some? && IsPrivateBlock(ParseOctets(addr).value))
  {
    StrPosChar(addr, ':');
    StrPosZeroIffPrefix(addr, UniqueLocalPrefix);
    if StrPos(addr, ":").Some? then
      StrPos(addr, UniqueLocalPrefix) != Some(0)
    else
      match Ip2Long(addr)
      case None => false
      case Some(long) =>
        RangesAsBlocks(ParseOctets(addr).value);
        (long >= Net10Low.Long() && long <= Net10High.Long()) ||
        (long >= Net172Low.Long() && long <= Net172High.Long()) ||
        (long >= Net192Low.Long() && long <= Net192High.Long())
  }

  /** Comparing the 32-bit number with the six range bounds is the same as
      matching the address against the three private prefixes. */
  lemma RangesAsBlocks(q: Octets)
    requires q.Valid()
    ensures ((q.Long() >= Net10Low.Long() && q.Long() <= Net10High.Long()) ||
             (q.Long() >= Net172Low.Long() && q.Long() <= Net172High.Long()) ||
             (q.Long() >= Net192Low.Long() && q.Long() <= Net192High.Long()))
            <==> IsPrivateBlock(q)
  {
  }

  /** The spellings of the octet values that the range bounds use. */
  lemma OctetSpellings()
    ensures Decimal(0) == "0" && Decimal(1) == "1" && Decimal(10) == "10" && Decimal(16) == "16"
    ensures Decimal(31) == "31" && Decimal(127) == "127" && Decimal(168) == "168"
    ensures Decimal(172) == "172" && Decimal(192) == "192" && Decimal(255) == "255"
  {
  }

  /** The dotted quad of four spellings. */
  lemma JoinQuad(a: string, b: string, c: string, d: string)
    ensures Join([a, b, c, d], '.') == a + "." + b + "." + c + "." + d
  {
    assert [a, b, c, d][1..] == [b, c, d];
    assert [b, c, d][1..] == [c, d];
    assert [c, d][1..] == [d];
    assert Join([c, d], '.') == c + ['.'] + d;
    assert Join([b, c, d], '.') == b + ['.'] + (c + ['.'] + d);
    assert Join([a, b, c, d], '.') == a + ['.'] + (b + ['.'] + (c + ['.'] + d));
  }

  /** The bounds of 10/8 are spelled as the listener writes them. */
  lemma Net10Spelling()
    ensures Net10Low.Format() == "10.0.0.0" && Net10High.Format() == "10.255.255.255"
  {
    OctetSpellings();
    JoinQuad("10", "0", "0", "0");
    JoinQuad("10", "255", "255", "255");
  }

  /** The bounds of 172.16/12 are spelled as the listener writes them. */
  lemma Net172Spelling()
    ensures Net172Low.Format() == "172.16.0.0" && Net172High.Format() == "172.31.255.255"
  {
  }

  /** The bounds of 192.168/16 are spelled as the listener writes them. */
  lemma Net192Spelling()
    ensures Net192Low.Format() == "192.168.0.0" && Net192High.Format() == "192.168.255.255"
  {
    OctetSpellings();
    JoinQuad("192", "168", "0", "0");
    JoinQuad("192", "168", "255", "255");
  }

  /** ip2long of 10.0.0.0 and 10.255.255.255, as the listener writes them,
      yields exactly the numbers of the bounds of 10/8. */
  lemma Net10BoundsAreIp2Long()
    ensures Ip2Long("10.0.0.0") == Some(Net10Low.Long())
    ensures Ip2Long("10.255.255.255") == Some(Net10High.Long())
  {
    Net10Spelling();
    ParseFormat(Net10Low);
    ParseFormat(Net10High);
  }

  /** ip2long of 172.16.0.0 and 172.31.255.255, as the listener writes them,
      yields exactly the numbers of the bounds of 172.16/12. */
  lemma Net172BoundsAreIp2Long()
    ensures Ip2Long("172.16.0.0") == Some(Net172Low.Long())
    ensures Ip2Long("172.31.255.255") == Some(Net172High.Long())
  {
    Net172Spelling();
    ParseFormat(Net172Low);
    ParseFormat(Net172High);
  }

  /** ip2long of 192.168.0.0 and 192.168.255.255, as the listener writes
      them, yields exactly the numbers of the bounds of 192.168/16. */
  lemma Net192BoundsAreIp2Long()
    ensures Ip2Long("192.168.0.0") == Some(Net192Low.Long())
    ensures Ip2Long("192.168.255.255") == Some(Net192High.Long())
  {
    Net192Spelling();
    ParseFormat(Net192Low);
    ParseFormat(Net192High);
  }

  /** The access rule of onKernelRequest: no truthy proxy header, a truthy
      REMOTE_ADDR, and that address local host or local network. */
  predicate Admits(server: map<string, string>)
    ensures Admits(server) ==> !Truthy(Get(server, ClientIpHeader)) && !Truthy(Get(server, ForwardedForHeader))
    ensures Admits(server) ==> RemoteAddr in server && server[RemoteAddr] != "" && server[RemoteAddr] != "0"
    ensures Admits(server) ==> IsLocalHost(server[RemoteAddr]) || IsLocalNetwork(server[RemoteAddr])
  {
    var addr := Get(server, RemoteAddr);
    !(Truthy(Get(server, ClientIpHeader)) ||
      Truthy(Get(server, ForwardedForHeader)) ||
      !Truthy(addr) ||
      (!IsLocalHost(addr.value) && !IsLocalNetwork(addr.value)))
  }

  /** Where the request came from, as the kernel tells the listener. */
  datatype RequestType = MasterRequest | SubRequest

  /** The parts of a response the listener sets. */
  datatype Response = Response(content: string, status: int, isPublic: bool)
  {
    /** Marks the response cacheable by shared caches. */
    function SetPublic(): (r: Response)
      ensures r.content == content && r.status == status && r.isPublic
    {
      this.(isPublic := true)
    }
  }

  /** The response every refused request receives. */
  const ForbiddenResponse: Response := Response(DeniedMessage, HttpForbidden, true)

  /** The kernel-request event: its request type and server parameters, the
      response a listener may set, and whether propagation was stopped. */
  class GetResponseEvent {
    const requestType: RequestType
    const server: map<string, string>
    var response: Option<Response>
    var propagationStopped: bool

    constructor (requestType: RequestType, server: map<string, string>)
      ensures this.requestType == requestType && this.server == server
      ensures response == None && !propagationStopped
    {
      this.requestType := requestType;
      this.server := server;
      response := None;
      propagationStopped := false;
    }

    method SetResponse(r: Response)
      modifies this`response
      ensures response == Some(r)
    {
      response := Some(r);
    }

    method StopPropagation()
      modifies this`propagationStopped
      ensures propagationStopped
    {
      propagationStopped := true;
    }
  }

  /** onKernelRequest: sub-requests pass untouched; a refused top-level request
      gets the public 403 response and stops propagation; an admitted one is
      left as it was. */
  method OnKernelRequest(event: GetResponseEvent)
    modifies event
    ensures event.requestType == SubRequest ==> unchanged(event)
    ensures event.requestType == MasterRequest && Admits(event.server) ==> unchanged(event)
    ensures event.requestType == MasterRequest && !Admits(event.server) ==>
              event.response == Some(ForbiddenResponse) && event.propagationStopped
  {
    if event.requestType != MasterRequest {
      return;
    }
    if !Admits(event.server) {
      var response := Response(DeniedMessage, HttpForbidden, false);
      event.SetResponse(response.SetPublic());
      event.StopPropagation();
    }
  }

  /** The whole rule in one statement: the address is read as the three
      loopback strings, the IPv6 prefix test, or the RFC 1918 blocks. */
  lemma AdmitsCharacterised(server: map<string, string>)
    ensures Admits(server) <==>
      && !Truthy(Get(server, ClientIpHeader))
      && !Truthy(Get(server, ForwardedForHeader))
      && RemoteAddr in server
      && server[RemoteAddr] != "" && server[RemoteAddr] != "0"
      && var addr := server[RemoteAddr];
         || addr in LoopbackAddresses
         || (':' in addr && !(UniqueLocalPrefix <= addr))
         || (':' !in addr && ParseOctets(addr).Some? && IsPrivateBlock(ParseOctets(addr).value))
  {
  }

  /** A truthy proxy header refuses the request whatever the address, even loopback. */
  lemma ProxyHeaderRefuses(server: map<string, string>)
    requires Truthy(Get(server, ClientIpHeader)) || Truthy(Get(server, ForwardedForHeader))
    ensures !Admits(server)
  {
  }

  /** A missing or falsy REMOTE_ADDR refuses the request. */
  lemma MissingAddressRefuses(server: map<string, string>)
    requires !Truthy(Get(server, RemoteAddr))
    ensures !Admits(server)
  {
  }

  /** A request with REMOTE_ADDR as its only server parameter is admitted
      when that address is truthy and local. */
  lemma DirectClient(addr: string)
    ensures Admits(map[RemoteAddr := addr]) <==>
              Truthy(Some(addr)) && (IsLocalHost(addr) || IsLocalNetwork(addr))
  {
    var server := map[RemoteAddr := addr];
    assert Get(server, ClientIpHeader) == None;
    assert Get(server, ForwardedForHeader) == None;
    assert Get(server, RemoteAddr) == Some(addr);
  }

  /** The dotted quad of an address holds no colon and is at least seven characters long. */
  lemma FormatShape(q: Octets)
    ensures ':' !in q.Format() && |q.Format()| >= 7
  {
    ColonFreeJoin([Decimal(q.a), Decimal(q.b), Decimal(q.c), Decimal(q.d)]);
  }

  /** isLocalNetwork on a dotted quad is exactly membership in a private block. */
  lemma IPv4LocalNetwork(q: Octets)
    requires q.Valid()
    ensures IsLocalNetwork(q.Format()) <==> IsPrivateBlock(q)
  {
    FormatShape(q);
    ParseFormat(q);
  }

  /** Without proxy headers, an IPv4 address in dotted-quad form is admitted
      exactly when it lies in a private block or is 127.0.0.1: the rest of
      127.0.0.0/8 is refused. */
  lemma IPv4Admission(q: Octets)
    requires q.Valid()
    ensures Admits(map[RemoteAddr := q.Format()]) <==> IsPrivateBlock(q) || q == Octets(127, 0, 0, 1)
  {
    var s := q.Format();
    DirectClient(s);
    FormatShape(q);
    IPv4LocalNetwork(q);
    assert s != "fe80::1" && s != "::1" by {
      assert "fe80::1"[4] == ':' && "::1"[0] == ':';
    }
    var loopback := Octets(127, 0, 0, 1);
    OctetSpellings();
    JoinQuad("127", "0", "0", "1");
    assert loopback.Format() == "127.0.0.1";
    if s == "127.0.0.1" {
      ParseFormat(q);
      ParseFormat(loopback);
    }
  }

  /** Without proxy headers, an address with a colon is admitted unless it
      starts with "fc00::" (the loopback spellings start otherwise). */
  lemma IPv6Admission(addr: string)
    requires ':' in addr
    ensures Admits(map[RemoteAddr := addr]) <==> !(UniqueLocalPrefix <= addr)
  {
    DirectClient(addr);
    assert addr != "" && addr != "0";
    assert !(UniqueLocalPrefix <= "fe80::1") by {
      assert "fe80::1"[1] != UniqueLocalPrefix[1];
    }
    assert !(UniqueLocalPrefix <= "::1") by {
      assert "::1"[0] != UniqueLocalPrefix[0];
    }
  }

  /** The IPv6 rule refuses an address starting with "fc00::". */
  lemma UniqueLocalRefused()
    ensures !Admits(map[RemoteAddr := "fc00::1"])
  {
    assert "fc00::1"[4] == ':';
    IPv6Admission("fc00::1");
    assert UniqueLocalPrefix <= "fc00::1";
  }

  /** The IPv6 rule admits a global address such as 2001:db8::1. */
  lemma GlobalIPv6Admitted()
    ensures Admits(map[RemoteAddr := "2001:db8::1"])
  {
    assert "2001:db8::1"[4] == ':';
    IPv6Admission("2001:db8::1");
    assert "2001:db8::1"[0] != UniqueLocalPrefix[0];
  }

  /** The IPv6 rule is a case-sensitive string prefix test, so it admits the
      rest of fc00::/7 and the upper-case spelling of the refused prefix. */
  lemma PrefixTestIsLiteral()
    ensures Admits(map[RemoteAddr := "fd00::1"])
    ensures Admits(map[RemoteAddr := "fc00:1::1"])
    ensures Admits(map[RemoteAddr := "FC00::1"])
  {
    assert "fd00::1"[4] == ':' && "fc00:1::1"[4] == ':' && "FC00::1"[4] == ':';
    IPv6Admission("fd00::1");
    IPv6Admission("fc00:1::1");
    IPv6Admission("FC00::1");
    assert "fd00::1"[1] != UniqueLocalPrefix[1];
    assert "fc00:1::1"[5] != UniqueLocalPrefix[5];
    assert "FC00::1"[0] != UniqueLocalPrefix[0];
  }

  /** Two IPv4 examples: a public address and a loopback address other than
      127.0.0.1 are both refused; a home-network address is admitted. */
  lemma IPv4Examples()
    ensures !Admits(map[RemoteAddr := "8.8.8.8"])
    ensures !Admits(map[RemoteAddr := "127.0.0.2"])
    ensures Admits(map[RemoteAddr := "192.168.1.10"])
  {
    OctetSpellings();
    assert Decimal(8) == "8" && Decimal(2) == "2" && Decimal(10) == "10";
    JoinQuad("8", "8", "8", "8");
    JoinQuad("127", "0", "0", "2");
    JoinQuad("192", "168", "1", "10");
    assert Octets(8, 8, 8, 8).Format() == "8.8.8.8";
    assert Octets(127, 0, 0, 2).Format() == "127.0.0.2";
    assert Octets(192, 168, 1, 10).Format() == "192.168.1.10";
    IPv4Admission(Octets(8, 8, 8, 8));
    IPv4Admission(Octets(127, 0, 0, 2));
    IPv4Admission(Octets(192, 168, 1, 10));
  }

  /** A dotted join of decimal octets holds no colon and has at least one
      character per part and per dot. */
  lemma {:induction false} ColonFreeJoin(parts: seq<string>)
    requires |parts| >= 1
    requires forall i :: 0 <= i < |parts| ==> IsCanonicalDecimal(parts[i])
    ensures ':' !in Join(parts, '.')
    ensures |Join(parts, '.')| >= 2 * |parts| - 1
    decreases |parts|
  {
    if |parts| > 1 {
      ColonFreeJoin(parts[1..]);
    }
  }
}
