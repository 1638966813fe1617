/**
 The SOCKS5 server side (socks/request.go, auth_handler.go, authenticator.go, connection_handler.go):
 sections 3 to 6 of RFC 1928, with the user and password method of RFC 1929.

 A stream is the bytes the client sends, in all; a reader that wants more than is left fails.
 */
module Socks {
  import opened Wrappers

  const SOCKS5_VERSION: Byte := 5

  const IPV4_ADDRESS: Byte := 1
  const FQDN_ADDRESS: Byte := 3
  const IPV6_ADDRESS: Byte := 4

  const NO_AUTH: Byte := 0
  const USER_PASS_AUTH: Byte := 2
  const NO_ACCEPTABLE: Byte := 255
  const USER_AUTH_VERSION: Byte := 1
  const AUTH_SUCCESS: Byte := 0
  const AUTH_FAILURE: Byte := 1

  /** An address that has no IP has the empty one. */
  datatype AddrSpec = AddrSpec(fqdn: Bytes, ip: Bytes, port: int)

  datatype Request = Request(command: Byte, destAddr: AddrSpec)

  // ---------- Reading ----------

  /** A value read, and the place where reading goes on. */
  datatype Taken<T> = Taken(value: T, next: nat)

  function ReadByte(s: Bytes, pos: nat): Option<Taken<Byte>> {
    if pos < |s| then Some(Taken(s[pos], pos + 1)) else None
  }

  function ReadBytes(s: Bytes, pos: nat, n: nat): Option<Taken<Bytes>> {
    if pos + n <= |s| then Some(Taken(s[pos..pos + n], pos + n)) else None
  }

  function ReadPort(s: Bytes, pos: nat, fqdn: Bytes, ip: Bytes): Option<Taken<AddrSpec>> {
    match ReadBytes(s, pos, 2)
    case None => None
    case Some(Taken(port, next)) =>
      var high: int, low: int := port[0], port[1];
      Some(Taken(AddrSpec(fqdn, ip, high * 256 + low), next))
  }

  function ReadIP(s: Bytes, pos: nat, n: nat): Option<Taken<AddrSpec>> {
    match ReadBytes(s, pos, n)
    case None => None
    case Some(Taken(ip, next)) => ReadPort(s, next, [], ip)
  }

  function ReadFQDN(s: Bytes, pos: nat): Option<Taken<AddrSpec>> {
    match ReadByte(s, pos)
    case None => None
    case Some(Taken(n, body)) =>
      match ReadBytes(s, body, n)
      case None => None
      case Some(Taken(fqdn, next)) => ReadPort(s, next, fqdn, [])
  }

  function ReadAddrSpec(s: Bytes, pos: nat): Option<Taken<AddrSpec>> {
    match ReadByte(s, pos)
    case None => None
    case Some(Taken(addrType, next)) =>
      if addrType == IPV4_ADDRESS then ReadIP(s, next, 4)
      else if addrType == IPV6_ADDRESS then ReadIP(s, next, 16)
      else if addrType == FQDN_ADDRESS then ReadFQDN(s, next)
      else None
  }

  /** Version, command and a reserved byte that is not looked at, then the address. */
  function ReadRequest(s: Bytes, pos: nat): Option<Taken<Request>> {
    match ReadBytes(s, pos, 3)
    case None => None
    case Some(Taken(header, next)) =>
      if header[0] != SOCKS5_VERSION then None
      else match ReadAddrSpec(s, next)
        case None => None
        case Some(Taken(dest, end)) => Some(Taken(Request(header[1], dest), end))
  }

  function ReadMethods(s: Bytes, pos: nat): Option<Taken<Bytes>> {
    match ReadByte(s, pos)
    case None => None
    case Some(Taken(n, next)) => ReadBytes(s, next, n)
  }

  // ---------- Authentication ----------

  datatype Authenticator = NoAuthAuthenticator | UserPassAuthAuthenticator(isValid: (Bytes, Bytes) -> bool)

  /** Where the stream is left, if authentication succeeds, and what was written to the client. */
  datatype Outcome<T> = Outcome(taken: Option<T>, written: Bytes)

  function Credentials(s: Bytes, pos: nat): Option<Taken<(Bytes, Bytes)>> {
    match ReadBytes(s, pos, 2)
    case None => None
    case Some(Taken(header, userPos)) =>
      if header[0] != USER_AUTH_VERSION then None
      else match ReadBytes(s, userPos, header[1])
        case None => None
        case Some(Taken(user, lenPos)) =>
          match ReadByte(s, lenPos)
          case None => None
          case Some(Taken(passLen, passPos)) =>
            match ReadBytes(s, passPos, passLen)
            case None => None
            case Some(Taken(pass, next)) => Some(Taken((user, pass), next))
  }

  function Authenticate(a: Authenticator, s: Bytes, pos: nat): Outcome<nat> {
    match a
    case NoAuthAuthenticator => Outcome(Some(pos), [SOCKS5_VERSION, NO_AUTH])
    case UserPassAuthAuthenticator(isValid) =>
      var hello := [SOCKS5_VERSION, USER_PASS_AUTH];
      match Credentials(s, pos)
      case None => Outcome(None, hello)
      case Some(Taken(c, next)) =>
        if isValid(c.0, c.1) then Outcome(Some(next), hello + [USER_AUTH_VERSION, AUTH_SUCCESS])
        else Outcome(None, hello + [USER_AUTH_VERSION, AUTH_FAILURE])
  }

  /** The place of the first method that has an authenticator, or the number of methods. */
  function FirstSupported(methods: Bytes, supported: set<Byte>, from: nat): (i: nat)
    requires from <= |methods|
    ensures from <= i <= |methods|
    ensures forall j :: from <= j < i ==> methods[j] !in supported
    ensures i < |methods| ==> methods[i] in supported
    decreases |methods| - from
  {
    if from == |methods| || methods[from] in supported then from else FirstSupported(methods, supported, from + 1)
  }

  /** The first method of the client's list that is supported is used. */
  function HandleAuth(authenticators: map<Byte, Authenticator>, s: Bytes, pos: nat): Outcome<nat> {
    match ReadMethods(s, pos)
    case None => Outcome(None, [])
    case Some(Taken(methods, next)) =>
      var i := FirstSupported(methods, authenticators.Keys, 0);
      if i < |methods| then Authenticate(authenticators[methods[i]], s, next)
      else Outcome(None, [SOCKS5_VERSION, NO_ACCEPTABLE])
  }

  /** The whole handshake: what goes on to the request handler, with the place where proxying starts. */
  function Serve(authenticators: map<Byte, Authenticator>, s: Bytes): Outcome<Taken<Request>> {
    match ReadByte(s, 0)
    case None => Outcome(None, [])
    case Some(Taken(version, next)) =>
      if version != SOCKS5_VERSION then Outcome(None, [])
      else
        var auth := HandleAuth(authenticators, s, next);
        match auth.taken
        case None => Outcome(None, auth.written)
        case Some(pos) => Outcome(ReadRequest(s, pos), auth.written)
  }

  const DEFAULT_AUTHENTICATORS: map<Byte, Authenticator> := map[NO_AUTH := NoAuthAuthenticator]

  // ---------- Writing ----------

  function MappedPrefix(): Bytes {
    [0, 0, 0, 0, 0, 0, 0, 0, 0, 0, 255, 255]
  }

  /** An IPv4 address, also in its 16-byte form, as four bytes. */
  function To4(ip: Bytes): Option<Bytes> {
    if |ip| == 4 then Some(ip)
    else if |ip| == 16 && ip[..12] == MappedPrefix() then Some(ip[12..])
    else None
  }

  /** A conversion to 16 bits, as two bytes. */
  function PortBytes(port: int): Bytes {
    var p := port % 65536;
    [p / 256, p % 256]
  }

  /** Type, body and port of an address; `None` stands for one that cannot be formatted. */
  function AddrBytes(a: AddrSpec): Option<Bytes> {
    if a.fqdn != [] then Some([FQDN_ADDRESS, |a.fqdn| % 256] + a.fqdn + PortBytes(a.port))
    else if To4(a.ip).Some? then Some([IPV4_ADDRESS] + To4(a.ip).value + PortBytes(a.port))
    else if |a.ip| == 16 then Some([IPV6_ADDRESS] + a.ip + PortBytes(a.port))
    else None
  }

  const ANY_ADDRESS := AddrSpec([], [0, 0, 0, 0], 0)

  function Reply(resp: Byte, addr: Option<AddrSpec>): Option<Bytes> {
    match AddrBytes(if addr.None? then ANY_ADDRESS else addr.value)
    case None => None
    case Some(b) => Some([SOCKS5_VERSION, resp, 0] + b)
  }

  // ---------- Addresses come back ----------

  /** A name wins over an IP, and an IPv4 address becomes four bytes. */
  function Normalised(a: AddrSpec): AddrSpec {
    if a.fqdn != [] then a.(ip := [])
    else if To4(a.ip).Some? then a.(ip := To4(a.ip).value)
    else a
  }

  predicate Encodable(a: AddrSpec) {
    |a.fqdn| <= 255 && 0 <= a.port < 65536
  }

  lemma Middle(before: Bytes, b: Bytes, rest: Bytes, from: nat, to: nat)
    requires from <= to <= |b|
    ensures (before + b + rest)[|before| + from..|before| + to] == b[from..to]
  {
  }

  lemma ReadMiddle(before: Bytes, b: Bytes, rest: Bytes, from: nat, n: nat)
    requires from + n <= |b|
    ensures ReadBytes(before + b + rest, |before| + from, n) == Some(Taken(b[from..from + n], |before| + from + n))
    ensures n == 1 ==> ReadByte(before + b + rest, |before| + from) == Some(Taken(b[from], |before| + from + 1))
  {
    Middle(before, b, rest, from, from + n);
  }

  lemma PortReads(before: Bytes, body: Bytes, port: int, rest: Bytes, fqdn: Bytes, ip: Bytes)
    ensures var b := body + PortBytes(port);
            ReadPort(before + b + rest, |before| + |body|, fqdn, ip)
              == Some(Taken(AddrSpec(fqdn, ip, port % 65536), |before| + |b|))
  {
    var b := body + PortBytes(port);
    ReadMiddle(before, b, rest, |body|, 2);
    assert b[|body|..|body| + 2] == PortBytes(port);
  }

  lemma IPReads(before: Bytes, addrType: Byte, ip: Bytes, port: int, rest: Bytes)
    requires (addrType == IPV4_ADDRESS && |ip| == 4) || (addrType == IPV6_ADDRESS && |ip| == 16)
    ensures var b := [addrType] + ip + PortBytes(port);
            ReadAddrSpec(before + b + rest, |before|) == Some(Taken(AddrSpec([], ip, port % 65536), |before| + |b|))
  {
    var body := [addrType] + ip;
    var b := body + PortBytes(port);
    ReadMiddle(before, b, rest, 0, 1);
    ReadMiddle(before, b, rest, 1, |ip|);
    assert b[1..1 + |ip|] == ip;
    PortReads(before, body, port, rest, [], ip);
  }

  lemma FQDNReads(before: Bytes, fqdn: Bytes, port: int, rest: Bytes)
    requires |fqdn| <= 255
    ensures var b := [FQDN_ADDRESS, |fqdn| % 256] + fqdn + PortBytes(port);
            ReadAddrSpec(before + b + rest, |before|) == Some(Taken(AddrSpec(fqdn, [], port % 65536), |before| + |b|))
  {
    var body := [FQDN_ADDRESS, |fqdn| % 256] + fqdn;
    var b := body + PortBytes(port);
    ReadMiddle(before, b, rest, 0, 1);
    ReadMiddle(before, b, rest, 1, 1);
    ReadMiddle(before, b, rest, 2, |fqdn|);
    assert b[2..2 + |fqdn|] == fqdn;
    PortReads(before, body, port, rest, fqdn, []);
  }

  /** Reading an address of names of at most 255 bytes takes exactly its own bytes, wherever it stands. */
  lemma AddressReads(before: Bytes, a: AddrSpec, rest: Bytes)
    requires AddrBytes(a).Some? && |a.fqdn| <= 255
    ensures var b := AddrBytes(a).value;
            ReadAddrSpec(before + b + rest, |before|)
              == Some(Taken(Normalised(a).(port := a.port % 65536), |before| + |b|))
  {
    if a.fqdn != [] {
      FQDNReads(before, a.fqdn, a.port, rest);
    } else if To4(a.ip).Some? {
      IPReads(before, IPV4_ADDRESS, To4(a.ip).value, a.port, rest);
    } else {
      IPReads(before, IPV6_ADDRESS, a.ip, a.port, rest);
    }
  }

  lemma ReadFQDNLength(s: Bytes, pos: nat)
    requires ReadAddrSpec(s, pos).Some?
    ensures |ReadAddrSpec(s, pos).value.value.fqdn| <= 255
    ensures 0 <= ReadAddrSpec(s, pos).value.value.port < 65536
  {
  }

  /**
   The address of a reply is read back, up to normalisation and to the last byte, exactly when its name has
   at most 255 bytes and its port is one.
   */
  lemma ReplyReadsBackIff(resp: Byte, a: AddrSpec)
    requires Reply(resp, Some(a)).Some?
    ensures var msg := Reply(resp, Some(a)).value;
            ReadAddrSpec(msg, 3) == Some(Taken(Normalised(a), |msg|)) <==> Encodable(a)
  {
    var msg := Reply(resp, Some(a)).value;
    if |a.fqdn| <= 255 {
      AddressReads([SOCKS5_VERSION, resp, 0], a, []);
      assert [SOCKS5_VERSION, resp, 0] + AddrBytes(a).value + [] == msg;
    } else if ReadAddrSpec(msg, 3).Some? {
      ReadFQDNLength(msg, 3);
    }
  }

  // ---------- Nothing beyond its own bytes ----------

  /** `t` begins with the first `n` bytes of `s`. */
  ghost predicate Agrees(s: Bytes, t: Bytes, n: nat) {
    n <= |s| && n <= |t| && s[..n] == t[..n]
  }

  lemma BytesLocal(s: Bytes, t: Bytes, pos: nat, n: nat)
    requires pos + n <= |s| && Agrees(s, t, pos + n)
    ensures ReadBytes(t, pos, n) == ReadBytes(s, pos, n)
    ensures n == 1 ==> ReadByte(t, pos) == ReadByte(s, pos)
  {
    assert s[pos..pos + n] == s[..pos + n][pos..] && t[pos..pos + n] == t[..pos + n][pos..];
    if n == 1 {
      assert s[pos] == s[..pos + n][pos] && t[pos] == t[..pos + n][pos];
    }
  }

  lemma AgreesLess(s: Bytes, t: Bytes, n: nat, m: nat)
    requires Agrees(s, t, n) && m <= n
    ensures Agrees(s, t, m)
  {
    assert s[..m] == s[..n][..m] && t[..m] == t[..n][..m];
  }

  lemma AddressLocal(s: Bytes, t: Bytes, pos: nat)
    requires ReadAddrSpec(s, pos).Some?
    ensures pos < ReadAddrSpec(s, pos).value.next <= |s|
    ensures Agrees(s, t, ReadAddrSpec(s, pos).value.next) ==> ReadAddrSpec(t, pos) == ReadAddrSpec(s, pos)
  {
    if Agrees(s, t, ReadAddrSpec(s, pos).value.next) {
      AddressLocalAgreeing(s, t, pos);
    }
  }

  lemma AddressLocalAgreeing(s: Bytes, t: Bytes, pos: nat)
    requires ReadAddrSpec(s, pos).Some? && Agrees(s, t, ReadAddrSpec(s, pos).value.next)
    ensures ReadAddrSpec(t, pos) == ReadAddrSpec(s, pos)
  {
    var end := ReadAddrSpec(s, pos).value.next;
    var body: nat := if s[pos] == FQDN_ADDRESS then pos + 2 else pos + 1;
    var n: nat := if s[pos] == FQDN_ADDRESS then s[pos + 1] else if s[pos] == IPV4_ADDRESS then 4 else 16;
    assert end == body + n + 2;
    AgreesLess(s, t, end, pos + 1);
    BytesLocal(s, t, pos, 1);
    if s[pos] == FQDN_ADDRESS {
      AgreesLess(s, t, end, pos + 2);
      BytesLocal(s, t, pos + 1, 1);
    }
    AgreesLess(s, t, end, body + n);
    BytesLocal(s, t, body, n);
    BytesLocal(s, t, body + n, 2);
  }

  lemma RequestLocal(s: Bytes, t: Bytes, pos: nat)
    requires ReadRequest(s, pos).Some?
    ensures pos < ReadRequest(s, pos).value.next <= |s|
    ensures Agrees(s, t, ReadRequest(s, pos).value.next) ==> ReadRequest(t, pos) == ReadRequest(s, pos)
  {
    AddressLocal(s, t, pos + 3);
    var end := ReadRequest(s, pos).value.next;
    if Agrees(s, t, end) {
      AgreesLess(s, t, end, pos + 3);
      BytesLocal(s, t, pos, 3);
    }
  }

  lemma CredentialsLocal(s: Bytes, t: Bytes, pos: nat)
    requires Credentials(s, pos).Some?
    ensures pos <= Credentials(s, pos).value.next <= |s|
    ensures Agrees(s, t, Credentials(s, pos).value.next) ==> Credentials(t, pos) == Credentials(s, pos)
  {
    var end := Credentials(s, pos).value.next;
    if Agrees(s, t, end) {
      var userLen: nat := s[pos + 1];
      var lenPos := pos + 2 + userLen;
      AgreesLess(s, t, end, pos + 2);
      BytesLocal(s, t, pos, 2);
      AgreesLess(s, t, end, lenPos);
      BytesLocal(s, t, pos + 2, userLen);
      AgreesLess(s, t, end, lenPos + 1);
      BytesLocal(s, t, lenPos, 1);
      BytesLocal(s, t, lenPos + 1, s[lenPos]);
    }
  }

  lemma MethodsLocal(s: Bytes, t: Bytes, pos: nat)
    requires ReadMethods(s, pos).Some?
    ensures pos < ReadMethods(s, pos).value.next <= |s|
    ensures Agrees(s, t, ReadMethods(s, pos).value.next) ==> ReadMethods(t, pos) == ReadMethods(s, pos)
  {
    var end := ReadMethods(s, pos).value.next;
    if Agrees(s, t, end) {
      AgreesLess(s, t, end, pos + 1);
      BytesLocal(s, t, pos, 1);
      BytesLocal(s, t, pos + 1, s[pos]);
    }
  }

  lemma AuthLocal(authenticators: map<Byte, Authenticator>, s: Bytes, t: Bytes, pos: nat)
    requires HandleAuth(authenticators, s, pos).taken.Some?
    ensures pos < HandleAuth(authenticators, s, pos).taken.value <= |s|
    ensures Agrees(s, t, HandleAuth(authenticators, s, pos).taken.value) ==>
              HandleAuth(authenticators, t, pos) == HandleAuth(authenticators, s, pos)
  {
    MethodsLocal(s, t, pos);
    var methods, next := ReadMethods(s, pos).value.value, ReadMethods(s, pos).value.next;
    var a := authenticators[methods[FirstSupported(methods, authenticators.Keys, 0)]];
    if a.UserPassAuthAuthenticator? {
      CredentialsLocal(s, t, next);
    }
    var end := HandleAuth(authenticators, s, pos).taken.value;
    if Agrees(s, t, end) {
      AgreesLess(s, t, end, next);
    }
  }

  /**
   A handshake that succeeds looks at its own bytes only: any stream that begins with them has the same
   handshake, ending at the same place, so what follows is precisely what is proxied.
   */
  lemma HandshakeLocal(authenticators: map<Byte, Authenticator>, s: Bytes, t: Bytes)
    requires Serve(authenticators, s).taken.Some?
    ensures Serve(authenticators, s).taken.value.next <= |s|
    ensures Agrees(s, t, Serve(authenticators, s).taken.value.next) ==>
              Serve(authenticators, t) == Serve(authenticators, s)
  {
    AuthLocal(authenticators, s, t, 1);
    var pos := HandleAuth(authenticators, s, 1).taken.value;
    RequestLocal(s, t, pos);
    var end := Serve(authenticators, s).taken.value.next;
    if Agrees(s, t, end) {
      AgreesLess(s, t, end, 1);
      BytesLocal(s, t, 0, 1);
      AgreesLess(s, t, end, pos);
    }
  }

  /** And it needs them all: no successful handshake is a proper beginning of another. */
  lemma HandshakePrefixFree(authenticators: map<Byte, Authenticator>, s: Bytes, n: nat)
    requires Serve(authenticators, s).taken.Some? && n < Serve(authenticators, s).taken.value.next
    ensures n <= |s| && Serve(authenticators, s[..n]).taken.None?
  {
    HandshakeLocal(authenticators, s, s);
    var t := s[..n];
    if Serve(authenticators, t).taken.Some? {
      assert forall k: nat :: k <= n ==> t[..k] == s[..k];
      HandshakeLocal(authenticators, t, s);
    }
  }

  // ---------- What a client sends ----------

  function Greeting(methods: Bytes): Bytes
    requires |methods| <= 255
  {
    [SOCKS5_VERSION, |methods|] + methods
  }

  lemma GreetingReads(methods: Bytes, rest: Bytes)
    requires |methods| <= 255
    ensures ReadByte(Greeting(methods) + rest, 0) == Some(Taken(SOCKS5_VERSION, 1))
    ensures ReadMethods(Greeting(methods) + rest, 1) == Some(Taken(methods, 2 + |methods|))
  {
    var g := Greeting(methods);
    assert [] + g + rest == g + rest;
    ReadMiddle([], g, rest, 0, 1);
    ReadMiddle([], g, rest, 1, 1);
    ReadMiddle([], g, rest, 2, |methods|);
    assert g[2..2 + |methods|] == methods;
  }

  lemma HeaderReads(before: Bytes, header: Bytes, b: Bytes, rest: Bytes)
    requires |header| == 3
    ensures ReadBytes(before + (header + b) + rest, |before|, 3) == Some(Taken(header, |before| + 3))
    ensures before + header + b + rest == before + (header + b) + rest
  {
    ReadMiddle(before, header + b, rest, 0, 3);
    assert (header + b)[0..3] == header;
  }

  lemma RequestReads(before: Bytes, command: Byte, reserved: Byte, a: AddrSpec, rest: Bytes)
    requires AddrBytes(a).Some? && Encodable(a)
    ensures var r := [SOCKS5_VERSION, command, reserved] + AddrBytes(a).value;
            ReadRequest(before + r + rest, |before|) == Some(Taken(Request(command, Normalised(a)), |before| + |r|))
  {
    var header, b := [SOCKS5_VERSION, command, reserved], AddrBytes(a).value;
    HeaderReads(before, header, b, rest);
    AddressReads(before + header, a, rest);
    assert Normalised(a).(port := a.port % 65536) == Normalised(a);
  }

  // ---------- On the wire ----------

  /** An address: its kind, its body and its port, high byte first. */
  lemma AddressOnWire(name: Bytes, ip: Bytes, port: int)
    requires 0 <= port < 65536
    ensures var tail := [port / 256, port % 256];
            && (0 < |name| <= 255 ==> AddrBytes(AddrSpec(name, ip, port)) == Some([3, |name|] + name + tail))
            && (|ip| == 4 ==> AddrBytes(AddrSpec([], ip, port)) == Some([1] + ip + tail))
            && (|ip| == 16 && ip[..12] != [0, 0, 0, 0, 0, 0, 0, 0, 0, 0, 255, 255] ==>
                  AddrBytes(AddrSpec([], ip, port)) == Some([4] + ip + tail))
            && (|ip| == 16 && ip[..12] == [0, 0, 0, 0, 0, 0, 0, 0, 0, 0, 255, 255] ==>
                  AddrBytes(AddrSpec([], ip, port)) == Some([1] + ip[12..] + tail))
  {
  }

  /** A reply: version, code, a zero and the address, which is all zeros when there is none. */
  lemma ReplyOnWire(resp: Byte, a: AddrSpec)
    ensures Reply(resp, None) == Some([5, resp, 0, 1, 0, 0, 0, 0, 0, 0])
    ensures Reply(resp, Some(a)).Some? <==> a.fqdn != [] || |a.ip| == 4 || |a.ip| == 16
    ensures AddrBytes(a).Some? ==> Reply(resp, Some(a)) == Some([5, resp, 0] + AddrBytes(a).value)
  {
    assert PortBytes(0) == [0, 0];
    assert [1] + [0, 0, 0, 0] + [0, 0] == [1, 0, 0, 0, 0, 0, 0];
    assert To4([0, 0, 0, 0]) == Some([0, 0, 0, 0]);
    assert AddrBytes(ANY_ADDRESS) == Some([1, 0, 0, 0, 0, 0, 0]);
    assert [5, resp, 0] + [1, 0, 0, 0, 0, 0, 0] == [5, resp, 0, 1, 0, 0, 0, 0, 0, 0];
  }

  /**
   A greeting that offers no-authentication, then a request: the server answers that no authentication is
   needed, gets the request, and leaves all that follows to the proxy.
   */
  lemma ClientIsServed(methods: Bytes, command: Byte, reserved: Byte, a: AddrSpec, rest: Bytes)
    requires |methods| <= 255 && 0 in methods && AddrBytes(a).Some? && Encodable(a)
    ensures var own := [5, |methods|] + methods + ([5, command, reserved] + AddrBytes(a).value);
            && Serve(DEFAULT_AUTHENTICATORS, own + rest)
               == Outcome(Some(Taken(Request(command, Normalised(a)), |own|)), [5, 0])
            && (own + rest)[|own|..] == rest
  {
    var r := [SOCKS5_VERSION, command, reserved] + AddrBytes(a).value;
    var own := Greeting(methods) + r;
    assert own + rest == Greeting(methods) + (r + rest);
    GreetingReads(methods, r + rest);
    RequestReads(Greeting(methods), command, reserved, a, rest);
    var i := FirstSupported(methods, DEFAULT_AUTHENTICATORS.Keys, 0);
    assert i < |methods| by {
      var j :| 0 <= j < |methods| && methods[j] == NO_AUTH;
    }
  }

  lemma NoneSupported(methods: Bytes, supported: set<Byte>)
    requires forall m :: m in methods ==> m !in supported
    ensures FirstSupported(methods, supported, 0) == |methods|
  {
  }

  /** A greeting without a supported method is refused, and the client told so. */
  lemma UnsupportedIsRefused(authenticators: map<Byte, Authenticator>, methods: Bytes, rest: Bytes)
    requires |methods| <= 255 && forall m :: m in methods ==> m !in authenticators
    ensures Serve(authenticators, [5, |methods|] + methods + rest) == Outcome(None, [5, 255])
  {
    GreetingReads(methods, rest);
    NoneSupported(methods, authenticators.Keys);
  }

  /** The message of section 2 of RFC 1929. */
  function UserPass(user: Bytes, pass: Bytes): Bytes
    requires |user| <= 255 && |pass| <= 255
  {
    [1, |user|] + user + [|pass|] + pass
  }

  lemma UserPassReads(before: Bytes, user: Bytes, pass: Bytes, rest: Bytes)
    requires |user| <= 255 && |pass| <= 255
    ensures var u := UserPass(user, pass);
            Credentials(before + u + rest, |before|) == Some(Taken((user, pass), |before| + |u|))
  {
    var u := UserPass(user, pass);
    ReadMiddle(before, u, rest, 0, 2);
    ReadMiddle(before, u, rest, 2, |user|);
    ReadMiddle(before, u, rest, 2 + |user|, 1);
    ReadMiddle(before, u, rest, 3 + |user|, |pass|);
    assert u[2..2 + |user|] == user && u[3 + |user|..3 + |user| + |pass|] == pass;
  }

  /**
   A client that offers a user name and password: with valid ones it is let in and its request read, with
   others it is refused before any request.
   */
  lemma UserIsChecked(isValid: (Bytes, Bytes) -> bool, user: Bytes, pass: Bytes, command: Byte, reserved: Byte,
                      a: AddrSpec, rest: Bytes)
    requires |user| <= 255 && |pass| <= 255 && AddrBytes(a).Some? && Encodable(a)
    ensures var own := [5, 1, 2] + UserPass(user, pass) + ([5, command, reserved] + AddrBytes(a).value);
            Serve(map[2 := UserPassAuthAuthenticator(isValid)], own + rest) ==
              if isValid(user, pass) then Outcome(Some(Taken(Request(command, Normalised(a)), |own|)), [5, 2, 1, 0])
              else Outcome(None, [5, 2, 1, 1])
  {
    var authenticators := map[2 := UserPassAuthAuthenticator(isValid)];
    var r := [SOCKS5_VERSION, command, reserved] + AddrBytes(a).value;
    var hello := [5, 1, 2] + UserPass(user, pass);
    assert hello + r + rest == hello + (r + rest);
    UserAuthenticates(isValid, user, pass, r + rest);
    RequestReads(hello, command, reserved, a, rest);
    ServesAs(authenticators, hello + r + rest);
  }

  lemma ServesAs(authenticators: map<Byte, Authenticator>, s: Bytes)
    requires s != [] && s[0] == 5
    ensures var auth := HandleAuth(authenticators, s, 1);
            Serve(authenticators, s) ==
              if auth.taken.None? then Outcome(None, auth.written)
              else Outcome(ReadRequest(s, auth.taken.value), auth.written)
  {
  }

  lemma UserAuthenticates(isValid: (Bytes, Bytes) -> bool, user: Bytes, pass: Bytes, rest: Bytes)
    requires |user| <= 255 && |pass| <= 255
    ensures var hello := [5, 1, 2] + UserPass(user, pass);
            HandleAuth(map[2 := UserPassAuthAuthenticator(isValid)], hello + rest, 1) ==
              if isValid(user, pass) then Outcome(Some(|hello|), [5, 2, 1, 0]) else Outcome(None, [5, 2, 1, 1])
  {
    var u := UserPass(user, pass);
    assert Greeting([2]) == [5, 1, 2];
    assert [5, 1, 2] + u + rest == [5, 1, 2] + (u + rest);
    GreetingReads([2], u + rest);
    UserPassReads([5, 1, 2], user, pass, rest);
    assert FirstSupported([2], map[2 := UserPassAuthAuthenticator(isValid)].Keys, 0) == 0;
  }

  /** Another version is refused without a word, and so is a request of another version or kind of address. */
  lemma OthersAreRefused(authenticators: map<Byte, Authenticator>, s: Bytes, pos: nat)
    ensures s != [] && s[0] != 5 ==> Serve(authenticators, s) == Outcome(None, [])
    ensures pos + 3 < |s| && (s[pos] != 5 || s[pos + 3] !in {1, 3, 4}) ==> ReadRequest(s, pos) == None
    ensures pos + 1 < |s| && s[pos] != 1 ==> Credentials(s, pos) == None
  {
  }

  // ---------- The server ----------

  /** The buffered connection: a read that finds too few bytes consumes what is left. */
  class Stream {
    const input: Bytes
    var pos: nat

    ghost predicate Valid()
      reads this
    {
      pos <= |input|
    }

    constructor (input: Bytes)
      ensures Valid() && this.input == input && pos == 0
    {
      this.input := input;
      pos := 0;
    }

    method Next() returns (b: Option<Byte>)
      requires Valid()
      modifies this
      ensures Valid() && Did(b, ReadByte(input, old(pos)), pos)
    {
      if pos == |input| {
        return None;
      }
      b := Some(input[pos]);
      pos := pos + 1;
    }

    method ReadAtLeast(n: nat) returns (b: Option<Bytes>)
      requires Valid()
      modifies this
      ensures Valid() && Did(b, ReadBytes(input, old(pos), n), pos)
    {
      if pos + n > |input| {
        pos := |input|;
        return None;
      }
      b := Some(input[pos..pos + n]);
      pos := pos + n;
    }
  }

  /** A reading method that did what `expected` says: the same value, and the same place to go on. */
  ghost predicate Did<T>(got: Option<T>, expected: Option<Taken<T>>, pos: nat) {
    match expected
    case None => got.None?
    case Some(taken) => got == Some(taken.value) && pos == taken.next
  }

  method ReadAddrSpecFrom(r: Stream) returns (d: Option<AddrSpec>)
    requires r.Valid()
    modifies r
    ensures r.Valid() && Did(d, ReadAddrSpec(r.input, old(r.pos)), r.pos)
  {
    var fqdn: Bytes, ip: Bytes := [], [];
    var addrType := r.Next();
    if addrType.None? {
      return None;
    }
    if addrType.value == IPV4_ADDRESS {
      var addr := r.ReadAtLeast(4);
      if addr.None? {
        return None;
      }
      ip := addr.value;
    } else if addrType.value == IPV6_ADDRESS {
      var addr := r.ReadAtLeast(16);
      if addr.None? {
        return None;
      }
      ip := addr.value;
    } else if addrType.value == FQDN_ADDRESS {
      var addrLen := r.Next();
      if addrLen.None? {
        return None;
      }
      var name := r.ReadAtLeast(addrLen.value);
      if name.None? {
        return None;
      }
      fqdn := name.value;
    } else {
      return None;
    }
    var port := r.ReadAtLeast(2);
    if port.None? {
      return None;
    }
    var high: int, low: int := port.value[0], port.value[1];
    return Some(AddrSpec(fqdn, ip, high * 256 + low));
  }

  method NewRequest(r: Stream) returns (req: Option<Request>)
    requires r.Valid()
    modifies r
    ensures r.Valid() && Did(req, ReadRequest(r.input, old(r.pos)), r.pos)
  {
    var header := r.ReadAtLeast(3);
    if header.None? || header.value[0] != SOCKS5_VERSION {
      return None;
    }
    var dest := ReadAddrSpecFrom(r);
    if dest.None? {
      return None;
    }
    return Some(Request(header.value[1], dest.value));
  }

  method SendReply(resp: Byte, addr: Option<AddrSpec>) returns (sent: Option<Bytes>)
    ensures sent == Reply(resp, addr)
  {
    var addrType: Byte, addrBody: Bytes, addrPort := IPV4_ADDRESS, [0, 0, 0, 0], 0;
    if addr.Some? {
      addrPort := addr.value.port % 65536;
      if addr.value.fqdn != [] {
        addrType, addrBody := FQDN_ADDRESS, [|addr.value.fqdn| % 256] + addr.value.fqdn;
        assert [addrType] + addrBody == [FQDN_ADDRESS, |addr.value.fqdn| % 256] + addr.value.fqdn;
      } else if To4(addr.value.ip).Some? {
        addrType, addrBody := IPV4_ADDRESS, To4(addr.value.ip).value;
      } else if |addr.value.ip| == 16 {
        addrType, addrBody := IPV6_ADDRESS, addr.value.ip;
      } else {
        return None;
      }
    }
    var msg := FormatMessage(resp, addrType, addrBody, addrPort);
    return Some(msg);
  }

  /** The message is filled in by index. */
  method FormatMessage(resp: Byte, addrType: Byte, addrBody: Bytes, addrPort: nat) returns (sent: Bytes)
    requires addrPort < 65536
    ensures sent == [SOCKS5_VERSION, resp, 0] + ([addrType] + addrBody + PortBytes(addrPort))
  {
    var msg := new Byte[6 + |addrBody|];
    msg[0] := SOCKS5_VERSION;
    msg[1] := resp;
    msg[2] := 0;
    msg[3] := addrType;
    forall i | 0 <= i < |addrBody| {
      msg[4 + i] := addrBody[i];
    }
    msg[4 + |addrBody|] := addrPort / 256;
    msg[4 + |addrBody| + 1] := addrPort % 256;
    return msg[..];
  }

  method AuthenticateFrom(a: Authenticator, r: Stream) returns (ok: bool, written: Bytes)
    requires r.Valid()
    modifies r
    ensures r.Valid() && ReadsAs(ok, written, r.pos, Authenticate(a, r.input, old(r.pos)))
  {
    if a.NoAuthAuthenticator? {
      return true, [SOCKS5_VERSION, NO_AUTH];
    }
    written := [SOCKS5_VERSION, USER_PASS_AUTH];
    var header := r.ReadAtLeast(2);
    if header.None? || header.value[0] != USER_AUTH_VERSION {
      return false, written;
    }
    var user := r.ReadAtLeast(header.value[1]);
    if user.None? {
      return false, written;
    }
    var passLen := r.Next();
    if passLen.None? {
      return false, written;
    }
    var pass := r.ReadAtLeast(passLen.value);
    if pass.None? {
      return false, written;
    }
    ok := a.isValid(user.value, pass.value);
    written := written + [USER_AUTH_VERSION, if ok then AUTH_SUCCESS else AUTH_FAILURE];
  }

  ghost predicate ReadsAs(ok: bool, written: Bytes, pos: nat, expected: Outcome<nat>) {
    written == expected.written && (if ok then expected.taken == Some(pos) else expected.taken.None?)
  }

  class StandardAuthHandler {
    var authenticators: map<Byte, Authenticator>

    constructor ()
      ensures authenticators == DEFAULT_AUTHENTICATORS
    {
      authenticators := map[NO_AUTH := NoAuthAuthenticator];
    }

    method Register(m: Byte, a: Authenticator)
      modifies this
      ensures authenticators == old(authenticators)[m := a]
    {
      authenticators := authenticators[m := a];
    }

    method Handle(r: Stream) returns (ok: bool, written: Bytes)
      requires r.Valid()
      modifies r
      ensures r.Valid() && ReadsAs(ok, written, r.pos, HandleAuth(authenticators, r.input, old(r.pos)))
    {
      var numMethods := r.Next();
      if numMethods.None? {
        return false, [];
      }
      var methods := r.ReadAtLeast(numMethods.value);
      if methods.None? {
        return false, [];
      }
      ghost var first := FirstSupported(methods.value, authenticators.Keys, 0);
      for i := 0 to |methods.value|
        invariant i <= first
        invariant r.Valid() && Did(methods, ReadMethods(r.input, old(r.pos)), r.pos)
      {
        if methods.value[i] in authenticators {
          ok, written := AuthenticateFrom(authenticators[methods.value[i]], r);
          return;
        }
      }
      return false, [SOCKS5_VERSION, NO_ACCEPTABLE];
    }
  }

  class StandardConnectionHandler {
    const authHandler: StandardAuthHandler

    constructor ()
      ensures fresh(authHandler) && authHandler.authenticators == DEFAULT_AUTHENTICATORS
    {
      authHandler := new StandardAuthHandler();
    }

    /** Up to the request handler, which gets the request and the rest of the stream. */
    method ServeStream(r: Stream) returns (req: Option<Request>, written: Bytes)
      requires r.Valid() && r.pos == 0
      modifies r
      ensures r.Valid()
      ensures var expected := Serve(authHandler.authenticators, r.input);
              Did(req, expected.taken, r.pos) && written == expected.written
    {
      var version := r.Next();
      if version.None? || version.value != SOCKS5_VERSION {
        return None, [];
      }
      var ok;
      ok, written := authHandler.Handle(r);
      if !ok {
        return None, written;
      }
      req := NewRequest(r);
    }
  }
}
