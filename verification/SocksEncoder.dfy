/** src/SocksEncoder.cpp: each `encode` resizes the output buffer and assigns it in
    place by offsets; it is proved to leave exactly the layout of the wire format. */
module SocksEncoder {
  import opened SocksTypes
  import opened HostBytes
  import Wire

  /** `std::vector::resize`: keeps a prefix, appends zeros. */
  function Resized(s: Bytes, n: nat): (r: Bytes)
    ensures |r| == n
  {
    if n <= |s| then s[..n] else s + seq(n - |s|, i => 0)
  }

  function Copied(s: Bytes, at: nat, src: Bytes): (r: Bytes)
    requires at + |src| <= |s|
    ensures |r| == |s|
  {
    s[..at] + src + s[at + |src|..]
  }

  /** `VecByte` */
  class ByteBuffer {
    var bytes: Bytes

    constructor ()
      ensures bytes == []
    {
      bytes := [];
    }

    method Resize(n: nat)
      modifies this
      ensures bytes == Resized(old(bytes), n)
    {
      bytes := Resized(bytes, n);
    }

    method Put(i: nat, b: Byte)
      requires i < |bytes|
      modifies this
      ensures bytes == old(bytes)[i := b]
    {
      bytes := bytes[i := b];
    }

    /** `memcpy(buf.data() + at, src.data(), src.size())` */
    method CopyAt(at: nat, src: Bytes)
      requires at + |src| <= |bytes|
      modifies this
      ensures bytes == Copied(old(bytes), at, src)
    {
      bytes := Copied(bytes, at, src);
    }
  }

  // ---------------------------------------------------------------- the front of the buffer

  /** What has been written so far, from offset 0. */
  predicate Begins(s: Bytes, front: Bytes) {
    |front| <= |s| && s[..|front|] == front
  }

  lemma HeaderStays(s: Bytes, front: Bytes, n: nat)
    requires Begins(s, front) && |front| <= n
    ensures Begins(Resized(s, n), front)
  {
  }

  lemma PutAfter(s: Bytes, front: Bytes, b: Byte)
    requires Begins(s, front) && |front| < |s|
    ensures Begins(s[|front| := b], front + [b])
  {
  }

  lemma OneMoreByte(front: Bytes, s: Bytes, i: nat)
    requires i < |s|
    ensures front + s[..i] + [s[i]] == front + s[..i + 1]
  {
  }

  lemma CopiedAfter(s: Bytes, front: Bytes, src: Bytes)
    requires Begins(s, front) && |front| + |src| <= |s|
    ensures Begins(Copied(s, |front|, src), front + src)
  {
  }

  lemma AllWritten(s: Bytes, front: Bytes)
    requires Begins(s, front) && |s| == |front|
    ensures s == front
  {
    assert s[..|s|] == s;
  }

  lemma ShortLength(n: nat)
    requires n <= 255
    ensures Wire.LengthByte(n) == n
  {
  }

  lemma LastWritten(s: Bytes, front: Bytes, src: Bytes)
    requires Begins(s, front) && |s| == |front| + |src|
    ensures Copied(s, |front|, src) == front + src
  {
    CopiedAfter(s, front, src);
    AllWritten(Copied(s, |front|, src), front + src);
  }

  lemma HeaderWritten(s: Bytes, b0: Byte, b1: Byte, b2: Byte, b3: Byte)
    requires |s| >= 4
    ensures s[0 := b0][1 := b1][2 := b2][3 := b3] == [b0, b1, b2, b3] + s[4..]
    ensures Begins(s[0 := b0][1 := b1][2 := b2][3 := b3], [b0, b1, b2, b3])
  {
  }

  /** The three ways to continue a header with an address. */
  lemma AddressWritten(s: Bytes, header: Bytes, addr: VariantAddress)
    requires Begins(s, header) && |header| == 4
    ensures match addr
            case IPv4(v) => Begins(Copied(Resized(s, 10), 4, v), header + Wire.AddressLayout(addr))
            case Domain(name) =>
              Begins(Copied(Resized(s, 7 + |name|)[4 := Wire.LengthByte(|name|)], 5, name),
                     header + Wire.AddressLayout(addr))
            case IPv6(v) => Begins(Copied(Resized(s, 22), 4, v), header + Wire.AddressLayout(addr))
  {
    match addr
    case IPv4(v) =>
      HeaderStays(s, header, 10);
      CopiedAfter(Resized(s, 10), header, v);
    case Domain(name) =>
      var length := Wire.LengthByte(|name|);
      HeaderStays(s, header, 7 + |name|);
      PutAfter(Resized(s, 7 + |name|), header, length);
      CopiedAfter(Resized(s, 7 + |name|)[4 := length], header + [length], name);
      assert header + [length] + name == header + ([length] + name);
    case IPv6(v) =>
      HeaderStays(s, header, 22);
      CopiedAfter(Resized(s, 22), header, v);
  }

  method EncodeGreeting(msg: GreetingMsg, buf: ByteBuffer) returns (ok: bool)
    modifies buf
    ensures ok == Wire.EncodeGreeting(msg).Encoded?
    ensures buf.bytes == if ok then Wire.EncodeGreeting(msg).bytes else old(buf.bytes)
  {
    if msg.version != VERSION_5 || !IsVersionSupport(msg.version) {
      return false;
    }
    var n := |msg.authMethods|;
    if n == 0 {
      return false;
    }
    for i := 0 to n
      invariant forall j :: 0 <= j < i ==> Wire.IsSendableMethod(msg.authMethods[j])
    {
      if !IsAuthMethodExist(msg.authMethods[i]) && msg.authMethods[i] != NO_AVAILABLE_METHOD {
        assert !Wire.IsSendableMethod(msg.authMethods[i]);
        return false;
      }
    }
    assert Wire.AllSendable(msg.authMethods);
    buf.Resize(2 + n);
    buf.Put(0, msg.version);
    buf.Put(1, Wire.LengthByte(n));
    ghost var front := [msg.version, Wire.LengthByte(n)];
    assert Begins(buf.bytes, front + msg.authMethods[..0]);
    for i := 0 to n
      invariant |buf.bytes| == 2 + n && Begins(buf.bytes, front + msg.authMethods[..i])
    {
      PutAfter(buf.bytes, front + msg.authMethods[..i], msg.authMethods[i]);
      OneMoreByte(front, msg.authMethods, i);
      buf.Put(i + 2, msg.authMethods[i]);
    }
    assert msg.authMethods[..n] == msg.authMethods;
    AllWritten(buf.bytes, front + msg.authMethods);
    return true;
  }

  method EncodeGreetingReply(msg: GreetingReply, buf: ByteBuffer) returns (ok: bool)
    modifies buf
    ensures ok == Wire.EncodeGreetingReply(msg).Encoded?
    ensures buf.bytes == if ok then Wire.EncodeGreetingReply(msg).bytes else old(buf.bytes)
  {
    if msg.version != VERSION_5 || !IsVersionSupport(msg.version) {
      return false;
    }
    if !IsAuthMethodExist(msg.authMethod) && msg.authMethod != NO_AVAILABLE_METHOD {
      return false;
    }
    buf.Resize(2);
    buf.Put(0, msg.version);
    buf.Put(1, msg.authMethod);
    return true;
  }

  method EncodeCredentials(msg: CredentialsMsg, buf: ByteBuffer) returns (ok: bool)
    modifies buf
    ensures ok == Wire.EncodeCredentials(msg).Encoded?
    ensures buf.bytes == if ok then Wire.EncodeCredentials(msg).bytes else old(buf.bytes)
  {
    if Wire.WrongString(msg.user) || Wire.WrongString(msg.password) {
      return false;
    }
    var u, p := |msg.user|, |msg.password|;
    buf.Resize(u + p + 3);
    buf.Put(0, 0x01);
    buf.Put(1, Wire.LengthByte(u));
    ghost var front := [0x01, Wire.LengthByte(u)];
    assert Begins(buf.bytes, front);
    CopiedAfter(buf.bytes, front, msg.user);
    buf.CopyAt(2, msg.user);
    PutAfter(buf.bytes, front + msg.user, Wire.LengthByte(p));
    buf.Put(u + 2, Wire.LengthByte(p));
    LastWritten(buf.bytes, front + msg.user + [Wire.LengthByte(p)], msg.password);
    buf.CopyAt(u + 3, msg.password);
    return true;
  }

  method EncodeCredentialsReply(msg: CredentialsReply, buf: ByteBuffer) returns (ok: bool)
    modifies buf
    ensures ok == Wire.EncodeCredentialsReply(msg).Encoded?
    ensures buf.bytes == if ok then Wire.EncodeCredentialsReply(msg).bytes else old(buf.bytes)
  {
    if msg.version != VERSION_5 || !IsVersionSupport(msg.version) {
      return false;
    }
    buf.Resize(2);
    buf.Put(0, msg.version);
    buf.Put(1, msg.status);
    return true;
  }

  method EncodeCommand(msg: CommandMsg, buf: ByteBuffer) returns (ok: bool)
    requires Gettable(msg.addrType, msg.addr)
    modifies buf
    ensures ok == Wire.EncodeCommand(msg).Encoded?
    ensures buf.bytes == if ok then Wire.EncodeCommand(msg).bytes else old(buf.bytes)
  {
    if msg.version != VERSION_5 {
      return false;
    }
    if !IsAddressTypeExist(msg.addrType) {
      return false;
    }
    if !IsCommandExist(msg.command) {
      return false;
    }
    buf.Resize(6);
    buf.Put(0, msg.version);
    buf.Put(1, msg.command);
    buf.Put(2, 0x00);
    buf.Put(3, msg.addrType);
    ghost var header := [msg.version, msg.command, 0x00, msg.addrType];
    HeaderWritten(Resized(old(buf.bytes), 6), msg.version, msg.command, 0x00, msg.addrType);
    AddressWritten(buf.bytes, header, msg.addr);
    match msg.addr {
      case IPv4(v) =>
        buf.Resize(10);
        buf.CopyAt(4, v);
      case Domain(name) =>
        buf.Resize(7 + |name|);
        buf.Put(4, Wire.LengthByte(|name|));
        buf.CopyAt(5, name);
      case IPv6(v) =>
        buf.Resize(22);
        buf.CopyAt(4, v);
    }
    ghost var front := header + Wire.AddressLayout(msg.addr);
    LastWritten(buf.bytes, front, WordImage(msg.port));
    buf.CopyAt(|buf.bytes| - 2, WordImage(msg.port));
    return true;
  }

  /** A domain that is too long is refused only after the header has been written: the
      buffer is then left resized, holding the header. */
  method EncodeCommandReply(msg: CommandReply, buf: ByteBuffer) returns (ok: bool)
    requires Gettable(msg.addrType, msg.addr)
    modifies buf
    ensures ok == Wire.EncodeCommandReply(msg).Encoded?
    ensures ok ==> buf.bytes == Wire.EncodeCommandReply(msg).bytes
    ensures !ok && (msg.version != VERSION_5 || !IsAddressTypeExist(msg.addrType)) ==>
              buf.bytes == old(buf.bytes)
    ensures !ok && msg.version == VERSION_5 && IsAddressTypeExist(msg.addrType) ==>
              buf.bytes == [msg.version, msg.status, 0x00, msg.addrType] + Resized(old(buf.bytes), 6)[4..]
  {
    if msg.version != VERSION_5 || !IsVersionSupport(msg.version) {
      return false;
    }
    if !IsAddressTypeExist(msg.addrType) {
      return false;
    }
    buf.Resize(6);
    buf.Put(0, msg.version);
    buf.Put(1, msg.status);
    buf.Put(2, 0x00);
    buf.Put(3, msg.addrType);
    ghost var header := [msg.version, msg.status, 0x00, msg.addrType];
    HeaderWritten(Resized(old(buf.bytes), 6), msg.version, msg.status, 0x00, msg.addrType);
    AddressWritten(buf.bytes, header, msg.addr);
    ghost var front := header + Wire.AddressLayout(msg.addr);
    match msg.addr {
      case IPv4(v) =>
        buf.Resize(10);
        buf.CopyAt(4, v);
        LastWritten(buf.bytes, front, WordImage(msg.port));
        buf.CopyAt(8, WordImage(msg.port));
      case Domain(name) =>
        if |name| > 255 {
          return false;
        }
        ShortLength(|name|);
        buf.Resize(7 + |name|);
        buf.Put(4, |name|);
        buf.CopyAt(5, name);
        LastWritten(buf.bytes, front, WordImage(msg.port));
        buf.CopyAt(5 + |name|, WordImage(msg.port));
      case IPv6(v) =>
        buf.Resize(22);
        buf.CopyAt(4, v);
        LastWritten(buf.bytes, front, WordImage(msg.port));
        buf.CopyAt(20, WordImage(msg.port));
    }
    return true;
  }
}
