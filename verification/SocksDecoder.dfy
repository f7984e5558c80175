/** src/SocksDecoder.cpp: each `decode` fills a fresh message field by field and is
    proved to return exactly what the wire format prescribes. */
module SocksDecoder {
  import opened Wrappers
  import opened SocksTypes
  import opened HostBytes
  import Wire

  method DecodeGreeting(buf: Bytes) returns (ok: bool, msg: GreetingMsg)
    ensures ok == Wire.DecodeGreeting(buf).Some?
    ensures ok ==> Wire.DecodeGreeting(buf) == Some(msg)
  {
    msg := GreetingMsg(VERSION_5, []);
    if |buf| < 2 {
      return false, msg;
    }
    if !IsVersionSupport(buf[0]) {
      return false, msg;
    }
    msg := msg.(version := buf[0]);
    var numberOfMethods := Wire.LengthAt(buf, 1);
    if |buf| != numberOfMethods + 2 {
      return false, msg;
    }
    var i := 2;
    while i < |buf|
      invariant 2 <= i <= |buf|
      invariant forall j :: 2 <= j < i ==> IsAuthMethodExist(buf[j])
      invariant msg == GreetingMsg(buf[0], buf[2..i])
    {
      if !IsAuthMethodExist(buf[i]) {
        return false, msg;
      }
      msg := msg.(authMethods := msg.authMethods + [buf[i]]);
      i := i + 1;
    }
    assert buf[2..i] == buf[2..];
    return true, msg;
  }

  /** `std::copy(first, last, std::back_inserter(to))` */
  method AppendCopy(buf: Bytes, first: nat, last: nat, to: Bytes) returns (res: Bytes)
    requires first <= last <= |buf|
    ensures res == to + buf[first..last]
  {
    res := to;
    var i := first;
    while i < last
      invariant first <= i <= last
      invariant res == to + buf[first..i]
    {
      res := res + [buf[i]];
      i := i + 1;
    }
  }

  method DecodeCredentials(buf: Bytes) returns (ok: bool, msg: CredentialsMsg)
    ensures ok == Wire.DecodeCredentials(buf).Some?
    ensures ok ==> Wire.DecodeCredentials(buf) == Some(msg)
  {
    msg := CredentialsMsg([], []);
    if |buf| < 3 {
      return false, msg;
    }
    if buf[0] != 0x01 {
      return false, msg;
    }
    var userLen := Wire.LengthAt(buf, 1);
    if |buf| < userLen + 3 {
      return false, msg;
    }
    var user := AppendCopy(buf, 2, 2 + userLen, msg.user);
    msg := msg.(user := user);
    var passLen := Wire.LengthAt(buf, 2 + userLen);
    if |buf| != userLen + passLen + 3 {
      return false, msg;
    }
    var password := AppendCopy(buf, 3 + userLen, 3 + userLen + passLen, msg.password);
    msg := msg.(password := password);
    assert user == buf[2..2 + userLen] && password == buf[3 + userLen..];
    return true, msg;
  }

  method DecodeIPv4(buf: Bytes, msg0: CommandMsg) returns (ok: bool, msg: CommandMsg)
    requires |buf| >= 6 && buf[3] == IPV4_ADDR
    ensures ok == Wire.DecodeAddress(buf).Some?
    ensures msg == if ok then msg0.(addr := Wire.DecodeAddress(buf).value) else msg0
  {
    msg := msg0;
    if |buf| < 8 {
      return false, msg;
    }
    msg := msg.(addr := IPv4(buf[4..8]));
    return true, msg;
  }

  method DecodeDomain(buf: Bytes, msg0: CommandMsg) returns (ok: bool, msg: CommandMsg)
    requires |buf| >= 6 && buf[3] == DOMAIN_ADDR
    ensures ok == Wire.DecodeAddress(buf).Some?
    ensures msg == if ok then msg0.(addr := Wire.DecodeAddress(buf).value) else msg0
  {
    msg := msg0;
    var domainLen := Wire.LengthAt(buf, 4);
    if |buf| < 5 + domainLen {
      return false, msg;
    }
    var name := AppendCopy(buf, 5, 5 + domainLen, []);
    assert name == buf[5..5 + domainLen];
    msg := msg.(addr := Domain(name));
    return true, msg;
  }

  method DecodeIPv6(buf: Bytes, msg0: CommandMsg) returns (ok: bool, msg: CommandMsg)
    requires |buf| >= 6 && buf[3] == IPV6_ADDR
    ensures ok == Wire.DecodeAddress(buf).Some?
    ensures msg == if ok then msg0.(addr := Wire.DecodeAddress(buf).value) else msg0
  {
    msg := msg0;
    if |buf| < 20 {
      return false, msg;
    }
    msg := msg.(addr := IPv6(buf[4..20]));
    return true, msg;
  }

  method DecodePort(buf: Bytes, msg0: CommandMsg) returns (ok: bool, msg: CommandMsg)
    requires TagMatches(msg0.addrType, msg0.addr)
    ensures ok == Wire.DecodePort(buf, msg0.addr).Some?
    ensures msg == if ok then msg0.(port := Wire.DecodePort(buf, msg0.addr).value) else msg0
  {
    msg := msg0;
    if msg.addrType == IPV4_ADDR {
      if |buf| != 10 {
        return false, msg;
      }
      msg := msg.(port := WordValue(buf[8..10]));
    } else if msg.addrType == DOMAIN_ADDR {
      var n := |msg.addr.name|;
      if |buf| != 7 + n {
        return false, msg;
      }
      msg := msg.(port := WordValue(buf[5 + n..5 + n + 2]));
    } else {
      if |buf| != 22 {
        return false, msg;
      }
      msg := msg.(port := WordValue(buf[20..22]));
    }
    return true, msg;
  }

  method DecodeCommand(buf: Bytes) returns (ok: bool, msg: CommandMsg)
    ensures ok == Wire.DecodeCommand(buf).Some?
    ensures ok ==> Wire.DecodeCommand(buf) == Some(msg)
  {
    msg := CommandMsg(VERSION_5, 0, 0, IPv4(IPV4_ZERO), 0);
    if |buf| < 6 {
      return false, msg;
    }
    if !IsVersionSupport(buf[0]) {
      return false, msg;
    }
    if buf[2] != 0x00 {
      return false, msg;
    }
    msg := msg.(version := buf[0]);
    if !IsCommandExist(buf[1]) {
      return false, msg;
    }
    msg := msg.(command := buf[1]);
    if !IsAddressTypeExist(buf[3]) {
      return false, msg;
    }
    msg := msg.(addrType := buf[3]);
    if msg.addrType == IPV4_ADDR {
      ok, msg := DecodeIPv4(buf, msg);
    } else if msg.addrType == DOMAIN_ADDR {
      ok, msg := DecodeDomain(buf, msg);
    } else {
      ok, msg := DecodeIPv6(buf, msg);
    }
    if !ok {
      return false, msg;
    }
    ok, msg := DecodePort(buf, msg);
  }
}
