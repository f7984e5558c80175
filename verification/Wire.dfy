/** The wire format of the SOCKS5 messages (sections 3 to 6 of RFC 1928, section 2 of
    RFC 1929) as this code base reads and writes it, and what the two codecs promise
    each other. The layouts are written as concatenations; the encoder and decoder
    methods work by offsets and are proved against the functions of this module. */
module Wire {
  import opened Wrappers
  import opened SocksTypes
  import opened HostBytes

  datatype Encoding = Encoded(bytes: Bytes) | Refused

  // ---------------------------------------------------------------- layouts

  /** `(uint8_t)n`, the truncation every length byte goes through. */
  function LengthByte(n: nat): Byte {
    n % 0x100
  }

  function GreetingLayout(m: GreetingMsg): Bytes {
    [m.version, LengthByte(|m.authMethods|)] + m.authMethods
  }

  function CredentialsLayout(m: CredentialsMsg): Bytes {
    [0x01, LengthByte(|m.user|)] + m.user + [LengthByte(|m.password|)] + m.password
  }

  function AddressLayout(addr: VariantAddress): Bytes {
    match addr
    case IPv4(v) => v
    case Domain(name) => [LengthByte(|name|)] + name
    case IPv6(v) => v
  }

  function CommandLayout(m: CommandMsg): Bytes {
    [m.version, m.command, 0x00, m.addrType] + AddressLayout(m.addr) + WordImage(m.port)
  }

  function CommandReplyLayout(m: CommandReply): Bytes {
    [m.version, m.status, 0x00, m.addrType] + AddressLayout(m.addr) + WordImage(m.port)
  }

  // ---------------------------------------------------------------- encoding

  predicate IsSendableMethod(b: Byte) {
    IsAuthMethodExist(b) || b == NO_AVAILABLE_METHOD
  }

  predicate AllSendable(methods: Bytes) {
    forall i :: 0 <= i < |methods| ==> IsSendableMethod(methods[i])
  }

  predicate WrongString(s: Bytes) {
    |s| == 0 || |s| > 255
  }

  predicate OverlongDomain(addr: VariantAddress) {
    addr.Domain? && |addr.name| > 255
  }

  function EncodeGreeting(m: GreetingMsg): Encoding {
    if m.version != VERSION_5 || |m.authMethods| == 0 || !AllSendable(m.authMethods) then Refused
    else Encoded(GreetingLayout(m))
  }

  function EncodeGreetingReply(m: GreetingReply): Encoding {
    if m.version != VERSION_5 || !IsSendableMethod(m.authMethod) then Refused
    else Encoded([m.version, m.authMethod])
  }

  function EncodeCredentials(m: CredentialsMsg): Encoding {
    if WrongString(m.user) || WrongString(m.password) then Refused
    else Encoded(CredentialsLayout(m))
  }

  function EncodeCredentialsReply(m: CredentialsReply): Encoding {
    if m.version != VERSION_5 then Refused else Encoded([m.version, m.status])
  }

  /** There is no check on the length of a domain here. */
  function EncodeCommand(m: CommandMsg): Encoding
    requires Gettable(m.addrType, m.addr)
  {
    if m.version != VERSION_5 || !IsAddressTypeExist(m.addrType) || !IsCommandExist(m.command)
    then Refused else Encoded(CommandLayout(m))
  }

  function EncodeCommandReply(m: CommandReply): Encoding
    requires Gettable(m.addrType, m.addr)
  {
    if m.version != VERSION_5 || !IsAddressTypeExist(m.addrType) || OverlongDomain(m.addr)
    then Refused else Encoded(CommandReplyLayout(m))
  }

  // ---------------------------------------------------------------- decoding

  /** A length byte, promoted to `int` before it takes part in arithmetic. */
  function LengthAt(buf: Bytes, i: nat): (n: nat)
    requires i < |buf|
    ensures n == buf[i]
  {
    buf[i]
  }

  function DecodeGreeting(buf: Bytes): Option<GreetingMsg> {
    if |buf| < 2 || !IsVersionSupport(buf[0]) || |buf| != LengthAt(buf, 1) + 2
       || exists i :: 2 <= i < |buf| && !IsAuthMethodExist(buf[i])
    then None else Some(GreetingMsg(buf[0], buf[2..]))
  }

  function DecodeCredentials(buf: Bytes): Option<CredentialsMsg> {
    if |buf| < 3 || buf[0] != 0x01 || |buf| < LengthAt(buf, 1) + 3 then None
    else
      var userLen := LengthAt(buf, 1);
      var passLen := LengthAt(buf, 2 + userLen);
      if |buf| != userLen + passLen + 3 then None
      else Some(CredentialsMsg(buf[2..2 + userLen], buf[3 + userLen..]))
  }

  function DecodeAddress(buf: Bytes): Option<VariantAddress>
    requires |buf| >= 6
  {
    if buf[3] == IPV4_ADDR then
      if |buf| < 8 then None else Some(IPv4(buf[4..8]))
    else if buf[3] == DOMAIN_ADDR then
      if |buf| < 5 + LengthAt(buf, 4) then None else Some(Domain(buf[5..5 + LengthAt(buf, 4)]))
    else if buf[3] == IPV6_ADDR then
      if |buf| < 20 then None else Some(IPv6(buf[4..20]))
    else None
  }

  function DecodePort(buf: Bytes, addr: VariantAddress): Option<Word> {
    var at := match addr
      case IPv4(_) => 8
      case Domain(name) => 5 + |name|
      case IPv6(_) => 20;
    if |buf| != at + 2 then None else Some(WordValue(buf[at..at + 2]))
  }

  function DecodeCommand(buf: Bytes): Option<CommandMsg> {
    if |buf| < 6 || !IsVersionSupport(buf[0]) || buf[2] != 0x00
       || !IsCommandExist(buf[1]) || !IsAddressTypeExist(buf[3])
    then None
    else
      match DecodeAddress(buf)
      case None => None
      case Some(addr) =>
        match DecodePort(buf, addr)
        case None => None
        case Some(port) => Some(CommandMsg(buf[0], buf[1], buf[3], addr, port))
  }

  // ---------------------------------------------- what the decoder accepts

  predicate AcceptableGreeting(m: GreetingMsg) {
    m.version == VERSION_5 && |m.authMethods| <= 255
    && forall i :: 0 <= i < |m.authMethods| ==> IsAuthMethodExist(m.authMethods[i])
  }

  predicate AcceptableCredentials(m: CredentialsMsg) {
    |m.user| <= 255 && |m.password| <= 255
  }

  predicate AcceptableCommand(m: CommandMsg) {
    m.version == VERSION_5 && IsCommandExist(m.command)
    && TagMatches(m.addrType, m.addr) && !OverlongDomain(m.addr)
  }

  lemma GreetingAccepted(buf: Bytes, m: GreetingMsg)
    ensures DecodeGreeting(buf) == Some(m) <==> AcceptableGreeting(m) && buf == GreetingLayout(m)
  {
    if DecodeGreeting(buf) == Some(m) {
      assert forall i :: 0 <= i < |m.authMethods| ==> m.authMethods[i] == buf[i + 2];
      assert buf == GreetingLayout(m);
    }
    if AcceptableGreeting(m) && buf == GreetingLayout(m) {
      assert buf[2..] == m.authMethods;
      assert forall i :: 2 <= i < |buf| ==> buf[i] == m.authMethods[i - 2];
    }
  }

  lemma CredentialsAccepted(buf: Bytes, m: CredentialsMsg)
    ensures DecodeCredentials(buf) == Some(m) <==>
            AcceptableCredentials(m) && buf == CredentialsLayout(m)
  {
    if DecodeCredentials(buf) == Some(m) {
      assert buf == CredentialsLayout(m);
    }
    if AcceptableCredentials(m) && buf == CredentialsLayout(m) {
      var n := |m.user|;
      assert buf[1] == n && buf[2 + n] == |m.password|;
      assert buf[2..2 + n] == m.user && buf[3 + n..] == m.password;
    }
  }

  lemma LayoutDecodes(m: CommandMsg)
    requires AcceptableCommand(m)
    ensures DecodeAddress(CommandLayout(m)) == Some(m.addr)
    ensures DecodePort(CommandLayout(m), m.addr) == Some(m.port)
  {
    var buf := CommandLayout(m);
    var n := |buf| - 2;
    WordRoundTrip(m.port, WordImage(m.port));
    assert buf[n..n + 2] == WordImage(m.port);
    assert buf[4..n] == AddressLayout(m.addr);
    match m.addr
    case IPv4(v) =>
      assert buf[4..8] == v;
    case Domain(name) =>
      assert LengthAt(buf, 4) == |name|;
      assert buf[5..5 + |name|] == name;
    case IPv6(v) =>
      assert buf[4..20] == v;
  }

  lemma InThreeParts(s: Bytes, i: nat, j: nat)
    requires i <= j <= |s|
    ensures s == s[..i] + s[i..j] + s[j..]
  {
  }

  lemma DecodedIsLayout(buf: Bytes)
    requires DecodeCommand(buf).Some?
    ensures var m := DecodeCommand(buf).value; AcceptableCommand(m) && buf == CommandLayout(m)
  {
    var m := DecodeCommand(buf).value;
    var n := |buf| - 2;
    assert buf[n..n + 2] == buf[n..];
    WordRoundTrip(m.port, buf[n..]);
    assert m.addr.Domain? ==> |m.addr.name| == LengthAt(buf, 4);
    assert buf[..4] == [m.version, m.command, 0x00, m.addrType];
    assert buf[4..n] == AddressLayout(m.addr);
    InThreeParts(buf, 4, n);
  }

  lemma CommandAccepted(buf: Bytes, m: CommandMsg)
    ensures DecodeCommand(buf) == Some(m) <==> AcceptableCommand(m) && buf == CommandLayout(m)
  {
    if DecodeCommand(buf) == Some(m) {
      DecodedIsLayout(buf);
    }
    if AcceptableCommand(m) && buf == CommandLayout(m) {
      LayoutDecodes(m);
      assert buf[0] == m.version && buf[1] == m.command && buf[2] == 0x00 && buf[3] == m.addrType;
    }
  }

  // ---------------------------------------------------------------- round trips

  /** A greeting survives the round trip unless it has more than 255 methods or
      announces 0xff; then the decoder refuses it rather than reading another one. */
  lemma GreetingDecodeAfterEncode(m: GreetingMsg)
    requires EncodeGreeting(m).Encoded?
    ensures DecodeGreeting(EncodeGreeting(m).bytes) ==
            if |m.authMethods| > 255 || NO_AVAILABLE_METHOD in m.authMethods then None else Some(m)
  {
    var buf := EncodeGreeting(m).bytes;
    GreetingAccepted(buf, m);
    if NO_AVAILABLE_METHOD in m.authMethods {
      var i :| 0 <= i < |m.authMethods| && m.authMethods[i] == NO_AVAILABLE_METHOD;
      assert buf[i + 2] == NO_AVAILABLE_METHOD;
    }
  }

  lemma GreetingEncodeAfterDecode(buf: Bytes)
    requires DecodeGreeting(buf).Some?
    ensures var m := DecodeGreeting(buf).value;
            EncodeGreeting(m) == if m.authMethods == [] then Refused else Encoded(buf)
  {
    GreetingAccepted(buf, DecodeGreeting(buf).value);
  }

  lemma CredentialsDecodeAfterEncode(m: CredentialsMsg)
    requires EncodeCredentials(m).Encoded?
    ensures DecodeCredentials(EncodeCredentials(m).bytes) == Some(m)
  {
    CredentialsAccepted(EncodeCredentials(m).bytes, m);
  }

  lemma CredentialsEncodeAfterDecode(buf: Bytes)
    requires DecodeCredentials(buf).Some?
    ensures var m := DecodeCredentials(buf).value;
            EncodeCredentials(m) ==
            if m.user == [] || m.password == [] then Refused else Encoded(buf)
  {
    CredentialsAccepted(buf, DecodeCredentials(buf).value);
  }

  /** A command survives the round trip unless its domain is longer than 255 bytes; the
      truncated length byte the encoder then writes is never read back as another command. */
  lemma CommandDecodeAfterEncode(m: CommandMsg)
    requires Gettable(m.addrType, m.addr) && EncodeCommand(m).Encoded?
    ensures DecodeCommand(EncodeCommand(m).bytes) == if OverlongDomain(m.addr) then None else Some(m)
  {
    var buf := EncodeCommand(m).bytes;
    CommandAccepted(buf, m);
    if OverlongDomain(m.addr) {
      assert buf[4] == LengthByte(|m.addr.name|) && |buf| == 7 + |m.addr.name|;
    }
  }

  lemma CommandEncodeAfterDecode(buf: Bytes)
    requires DecodeCommand(buf).Some?
    ensures var m := DecodeCommand(buf).value;
            TagMatches(m.addrType, m.addr) && EncodeCommand(m) == Encoded(buf)
  {
    CommandAccepted(buf, DecodeCommand(buf).value);
  }

  /** The two separately written address encoders agree: a command and a reply with the
      same version, address and port differ in byte 1 only, and only the reply encoder
      refuses a domain longer than 255 bytes. */
  lemma AddressLayoutsAgree(m: CommandMsg, status: Byte)
    requires Gettable(m.addrType, m.addr) && EncodeCommand(m).Encoded?
    ensures var r := EncodeCommandReply(CommandReply(m.version, status, m.addrType, m.addr, m.port));
            var c := EncodeCommand(m).bytes;
            if OverlongDomain(m.addr) then r == Refused
            else r == Encoded(c[1 := status]) && (r == Encoded(c) <==> status == m.command)
  {
    var c := EncodeCommand(m).bytes;
    var tail := AddressLayout(m.addr) + WordImage(m.port);
    assert c == [m.version, m.command, 0x00, m.addrType] + tail;
    assert CommandReplyLayout(CommandReply(m.version, status, m.addrType, m.addr, m.port))
        == [m.version, status, 0x00, m.addrType] + tail;
    assert c[1 := status] == [m.version, status, 0x00, m.addrType] + tail;
    assert c[1] == m.command && c[1 := status][1] == status;
  }

  // ---------------------------------------------------------------- framing

  datatype Kind = Greeting | Credentials | Command

  predicate Accepts(kind: Kind, buf: Bytes) {
    match kind
    case Greeting => DecodeGreeting(buf).Some?
    case Credentials => DecodeCredentials(buf).Some?
    case Command => DecodeCommand(buf).Some?
  }

  /** No accepted message is a proper prefix of another one of its kind. */
  lemma PrefixFree(kind: Kind, a: Bytes, b: Bytes)
    requires Accepts(kind, a) && Accepts(kind, b) && a <= b
    ensures a == b
  {
    match kind
    case Greeting =>
      assert a[1] == b[1];
    case Credentials =>
      assert a[1] == b[1];
      assert a[2 + a[1]] == b[2 + a[1]];
    case Command =>
      assert a[3] == b[3] && a[4] == b[4];
  }

  function Concat(parts: seq<Bytes>): Bytes {
    if |parts| == 0 then [] else parts[0] + Concat(parts[1..])
  }

  /** The buffers are accepted messages of the first of these kinds, in order. */
  predicate Conversation(kinds: seq<Kind>, parts: seq<Bytes>) {
    |parts| <= |kinds| && forall i :: 0 <= i < |parts| ==> Accepts(kinds[i], parts[i])
  }

  lemma MessagesAreNotEmpty(kinds: seq<Kind>, parts: seq<Bytes>)
    requires Conversation(kinds, parts)
    ensures parts == [] <==> Concat(parts) == []
  {
    if |parts| > 0 {
      assert Accepts(kinds[0], parts[0]);
    }
  }

  /** The first message of a stream is determined. */
  lemma FirstOfStream(kind: Kind, a: Bytes, b: Bytes, after: Bytes, after': Bytes)
    requires Accepts(kind, a) && Accepts(kind, b) && a + after == b + after'
    ensures a == b && after == after'
  {
    var stream := a + after;
    assert stream[..|a|] == a && stream[..|b|] == b;
    if |a| <= |b| {
      assert a == b[..|a|];
      PrefixFree(kind, a, b);
    } else {
      assert b == a[..|b|];
      PrefixFree(kind, b, a);
    }
    assert after == stream[|a|..] == after';
  }

  /** A byte stream splits into accepted messages of given kinds in at most one way, also
      when it ends early: the number of messages is determined too. */
  lemma {:induction false} UniqueFraming(kinds: seq<Kind>, a: seq<Bytes>, b: seq<Bytes>)
    requires Conversation(kinds, a) && Conversation(kinds, b)
    requires Concat(a) == Concat(b)
    ensures a == b
  {
    if |a| == 0 {
      MessagesAreNotEmpty(kinds, b);
    } else if |b| == 0 {
      MessagesAreNotEmpty(kinds, a);
    } else {
      FirstOfStream(kinds[0], a[0], b[0], Concat(a[1..]), Concat(b[1..]));
      UniqueFraming(kinds[1..], a[1..], b[1..]);
      assert a == [a[0]] + a[1..] && b == [b[0]] + b[1..];
    }
  }
}
