/** The wire format in plain bytes: what sections 3 to 6 of RFC 1928 and section 2 of RFC 1929
    put where, with every number written out. */
module WireBytes {
  import opened Wrappers
  import opened SocksTypes
  import opened HostBytes
  import opened Wire

  function PortBytes(port: Word): Bytes {
    [port % 0x100, port / 0x100]
  }

  lemma PortInBytes(port: Word)
    ensures WordImage(port) == PortBytes(port)
  {
    TwoBytes(port);
  }

  /** Type byte, address and port. */
  predicate IsAddress(s: Bytes, addrType: Byte, addr: VariantAddress, port: Word) {
    match addr
    case IPv4(v) => addrType == 0x01 && s == [0x01] + v + PortBytes(port)
    case Domain(name) => addrType == 0x03 && |name| <= 255 && s == [0x03, |name|] + name + PortBytes(port)
    case IPv6(v) => addrType == 0x04 && s == [0x04] + v + PortBytes(port)
  }

  lemma AddressInBytes(first: Byte, second: Byte, addrType: Byte, addr: VariantAddress, port: Word, s: Bytes)
    requires TagMatches(addrType, addr) && !OverlongDomain(addr)
    ensures s == [first, second, 0x00, addrType] + AddressLayout(addr) + WordImage(port) <==>
            |s| >= 3 && s[..3] == [first, second, 0x00] && IsAddress(s[3..], addrType, addr, port)
  {
    PortInBytes(port);
    var tail := match addr
      case IPv4(v) => [0x01] + v + PortBytes(port)
      case Domain(name) => [0x03, |name|] + name + PortBytes(port)
      case IPv6(v) => [0x04] + v + PortBytes(port);
    assert [first, second, 0x00, addrType] + AddressLayout(addr) + WordImage(port) == [first, second, 0x00] + tail;
    assert ([first, second, 0x00] + tail)[3..] == tail;
    if |s| >= 3 {
      assert s == s[..3] + s[3..];
    }
  }

  lemma TagInBytes(addrType: Byte, addr: VariantAddress)
    ensures TagMatches(addrType, addr) <==>
            match addr
            case IPv4(_) => addrType == 0x01
            case Domain(_) => addrType == 0x03
            case IPv6(_) => addrType == 0x04
    ensures IsAddressTypeExist(addrType) <==> addrType == 0x01 || addrType == 0x03 || addrType == 0x04
  {
  }

  // ---------------------------------------------------------------- what the decoders read

  /** A greeting: 5, the number of methods, and that many bytes out of 0, 1 and 2. */
  lemma GreetingInBytes(buf: Bytes, m: GreetingMsg)
    ensures DecodeGreeting(buf) == Some(m) <==>
            m.version == 0x05 && |m.authMethods| <= 255 && buf == [0x05, |m.authMethods|] + m.authMethods
            && forall b <- m.authMethods :: b == 0x00 || b == 0x01 || b == 0x02
  {
    GreetingAccepted(buf, m);
    assert forall i :: 0 <= i < |m.authMethods| ==> m.authMethods[i] in m.authMethods;
    if forall i :: 0 <= i < |m.authMethods| ==> IsAuthMethodExist(m.authMethods[i]) {
      assert forall b <- m.authMethods :: IsAuthMethodExist(b);
    }
  }

  /** Credentials: 1, then user and password, each after its length. */
  lemma CredentialsInBytes(buf: Bytes, m: CredentialsMsg)
    ensures DecodeCredentials(buf) == Some(m) <==>
            |m.user| <= 255 && |m.password| <= 255
            && buf == [0x01, |m.user|] + m.user + [|m.password|] + m.password
  {
    CredentialsAccepted(buf, m);
  }

  /** A greeting that offers login and password: the methods contain 2. */
  predicate OffersInBytes(buf: Bytes) {
    |buf| >= 2 && buf[0] == 0x05 && buf[1] == |buf| - 2 && 0x02 in buf[2..]
    && forall b <- buf[2..] :: b == 0x00 || b == 0x01 || b == 0x02
  }

  lemma OfferInBytes(buf: Bytes)
    ensures OffersInBytes(buf) <==> DecodeGreeting(buf).Some? && 0x02 in DecodeGreeting(buf).value.authMethods
  {
    if DecodeGreeting(buf).Some? {
      GreetingInBytes(buf, DecodeGreeting(buf).value);
    }
    if OffersInBytes(buf) {
      assert buf == [0x05, |buf[2..]|] + buf[2..];
      GreetingInBytes(buf, GreetingMsg(0x05, buf[2..]));
    }
  }

  /** A command: 5, one of 1, 2 and 3, a zero, and an address. */
  lemma CommandInBytes(buf: Bytes, m: CommandMsg)
    ensures DecodeCommand(buf) == Some(m) <==>
            m.version == 0x05 && (m.command == 0x01 || m.command == 0x02 || m.command == 0x03)
            && |buf| >= 3 && buf[..3] == [0x05, m.command, 0x00]
            && IsAddress(buf[3..], m.addrType, m.addr, m.port)
  {
    CommandAccepted(buf, m);
    TagInBytes(m.addrType, m.addr);
    if TagMatches(m.addrType, m.addr) && !OverlongDomain(m.addr) {
      AddressInBytes(0x05, m.command, m.addrType, m.addr, m.port, buf);
    }
  }

  /** The three address forms of a command, decoded. */
  lemma DecodedForms(command: Byte, v4: IPv4Bytes, name: Bytes, v6: IPv6Bytes, port: Word)
    requires command == 0x01 || command == 0x02 || command == 0x03
    ensures DecodeCommand([0x05, command, 0x00, 0x01] + v4 + PortBytes(port))
         == Some(CommandMsg(0x05, command, 0x01, IPv4(v4), port))
    ensures |name| <= 255 ==>
              Some(CommandMsg(0x05, command, 0x03, Domain(name), port)) ==
              DecodeCommand([0x05, command, 0x00, 0x03, |name|] + name + PortBytes(port))
    ensures DecodeCommand([0x05, command, 0x00, 0x04] + v6 + PortBytes(port))
         == Some(CommandMsg(0x05, command, 0x04, IPv6(v6), port))
  {
    var head: Bytes := [0x05, command, 0x00];
    var a := [0x01] + v4 + PortBytes(port);
    assert [0x05, command, 0x00, 0x01] + v4 + PortBytes(port) == head + a && (head + a)[3..] == a;
    CommandInBytes(head + a, CommandMsg(0x05, command, 0x01, IPv4(v4), port));
    var c := [0x04] + v6 + PortBytes(port);
    assert [0x05, command, 0x00, 0x04] + v6 + PortBytes(port) == head + c && (head + c)[3..] == c;
    CommandInBytes(head + c, CommandMsg(0x05, command, 0x04, IPv6(v6), port));
    if |name| <= 255 {
      var b := [0x03, |name|] + name + PortBytes(port);
      assert [0x05, command, 0x00, 0x03, |name|] + name + PortBytes(port) == head + b && (head + b)[3..] == b;
      CommandInBytes(head + b, CommandMsg(0x05, command, 0x03, Domain(name), port));
    }
  }

  // ---------------------------------------------------------------- what the encoders write

  lemma GreetingWritten(m: GreetingMsg)
    ensures EncodeGreeting(m) ==
            if m.version == 0x05 && m.authMethods != []
               && forall b <- m.authMethods :: b == 0x00 || b == 0x01 || b == 0x02 || b == 0xff
            then Encoded([0x05, |m.authMethods| % 0x100] + m.authMethods) else Refused
  {
    assert forall i :: 0 <= i < |m.authMethods| ==> m.authMethods[i] in m.authMethods;
    if AllSendable(m.authMethods) {
      assert forall b <- m.authMethods :: IsSendableMethod(b);
    }
  }

  lemma CredentialsWritten(m: CredentialsMsg)
    ensures EncodeCredentials(m) ==
            if 1 <= |m.user| <= 255 && 1 <= |m.password| <= 255
            then Encoded([0x01, |m.user|] + m.user + [|m.password|] + m.password) else Refused
  {
  }

  /** The two replies of the authentication, to any other message nothing. */
  lemma RepliesWritten(version: Byte, b: Byte)
    ensures EncodeGreetingReply(GreetingReply(version, b)) ==
            if version == 0x05 && (b == 0x00 || b == 0x01 || b == 0x02 || b == 0xff)
            then Encoded([0x05, b]) else Refused
    ensures EncodeCredentialsReply(CredentialsReply(version, b)) ==
            if version == 0x05 then Encoded([0x05, b]) else Refused
  {
  }

  /** A command with an address that fits is written out in full; only the type byte, the
      command and the version can make it refused. */
  lemma CommandWritten(m: CommandMsg)
    requires Gettable(m.addrType, m.addr)
    ensures EncodeCommand(m).Encoded? <==>
            m.version == 0x05 && (m.command == 0x01 || m.command == 0x02 || m.command == 0x03)
            && (m.addrType == 0x01 || m.addrType == 0x03 || m.addrType == 0x04)
    ensures EncodeCommand(m).Encoded? && !OverlongDomain(m.addr) ==>
              var s := EncodeCommand(m).bytes;
              |s| >= 3 && s[..3] == [0x05, m.command, 0x00] && IsAddress(s[3..], m.addrType, m.addr, m.port)
  {
    if EncodeCommand(m).Encoded? && !OverlongDomain(m.addr) {
      AddressInBytes(0x05, m.command, m.addrType, m.addr, m.port, EncodeCommand(m).bytes);
    }
  }

  lemma CommandReplyWritten(m: CommandReply)
    requires Gettable(m.addrType, m.addr)
    ensures EncodeCommandReply(m).Encoded? <==>
            m.version == 0x05 && (m.addrType == 0x01 || m.addrType == 0x03 || m.addrType == 0x04)
            && (m.addr.Domain? ==> |m.addr.name| <= 255)
    ensures EncodeCommandReply(m).Encoded? ==>
              var s := EncodeCommandReply(m).bytes;
              |s| >= 3 && s[..3] == [0x05, m.status, 0x00] && IsAddress(s[3..], m.addrType, m.addr, m.port)
  {
    if EncodeCommandReply(m).Encoded? {
      AddressInBytes(0x05, m.status, m.addrType, m.addr, m.port, EncodeCommandReply(m).bytes);
    }
  }

  /** The reply that grants a command, for each form of address. */
  function GrantedReply(a: SocksAddress): Bytes {
    match a.addr
    case IPv4(v) => [0x05, 0x00, 0x00, 0x01] + v + PortBytes(a.port)
    case Domain(name) => [0x05, 0x00, 0x00, 0x03, |name| % 0x100] + name + PortBytes(a.port)
    case IPv6(v) => [0x05, 0x00, 0x00, 0x04] + v + PortBytes(a.port)
  }

  lemma GrantWritten(a: SocksAddress)
    requires Gettable(a.addrType, a.addr)
    ensures var r := EncodeCommandReply(CommandReply(0x05, 0x00, a.addrType, a.addr, a.port));
            r == if (a.addrType == 0x01 || a.addrType == 0x03 || a.addrType == 0x04)
                    && (a.addr.Domain? ==> |a.addr.name| <= 255)
                 then Encoded(GrantedReply(a)) else Refused
  {
    PortInBytes(a.port);
    TagInBytes(a.addrType, a.addr);
    if IsAddressTypeExist(a.addrType) && !OverlongDomain(a.addr) {
      assert [0x05, 0x00, 0x00, a.addrType] + AddressLayout(a.addr) + PortBytes(a.port) == GrantedReply(a);
    }
  }
}
