/** Bytes, the message and address types of the proxy (src/SocksTypes.h) and the
    byte predicates shared by both codecs (src/SocksCommon.cpp). */
module SocksTypes {

  type Byte = b: int | 0 <= b < 0x100 witness 0

  /** A byte vector, and also a `std::string`: the proxy only copies and compares both. */
  type Bytes = seq<Byte>

  /** `uint16_t` */
  type Word = w: int | 0 <= w < 0x1_0000 witness 0

  const IPV4_ZERO: Bytes := [0, 0, 0, 0]
  const IPV6_ZERO: Bytes := [0, 0, 0, 0, 0, 0, 0, 0, 0, 0, 0, 0, 0, 0, 0, 0]

  /** `Byte _value[4]` and `Byte _value[16]` */
  type IPv4Bytes = s: Bytes | |s| == 4 witness IPV4_ZERO
  type IPv6Bytes = s: Bytes | |s| == 16 witness IPV6_ZERO

  const VERSION_5: Byte := 0x05

  const NO_AUTH: Byte := 0x00
  const AUTH_GSSAPI: Byte := 0x01
  const AUTH_LOGIN_PASS: Byte := 0x02
  const NO_AVAILABLE_METHOD: Byte := 0xff

  const TCP_STREAM: Byte := 0x01
  const TCP_PORT_BINDING: Byte := 0x02
  const UDP_PORT_BINDING: Byte := 0x03

  const IPV4_ADDR: Byte := 0x01
  const DOMAIN_ADDR: Byte := 0x03
  const IPV6_ADDR: Byte := 0x04

  const REQUEST_GRANTED: Byte := 0x00
  const GENERAL_FAILURE: Byte := 0x01
  const HOST_UNREACHABLE: Byte := 0x04
  const COMMAND_NOT_SUPPORTED: Byte := 0x07

  datatype VariantAddress =
    | IPv4(ipv4: IPv4Bytes)
    | Domain(name: Bytes)
    | IPv6(ipv6: IPv6Bytes)

  datatype SocksAddress = SocksAddress(addrType: Byte, addr: VariantAddress, port: Word)

  /** `SocksAddress{}`: every member value-initialised, so the type byte is 0. */
  const EMPTY_ADDRESS: SocksAddress := SocksAddress(0, IPv4(IPV4_ZERO), 0)

  datatype GreetingMsg = GreetingMsg(version: Byte, authMethods: Bytes)
  datatype GreetingReply = GreetingReply(version: Byte, authMethod: Byte)
  datatype CredentialsMsg = CredentialsMsg(user: Bytes, password: Bytes)
  datatype CredentialsReply = CredentialsReply(version: Byte, status: Byte)
  datatype CommandMsg =
    CommandMsg(version: Byte, command: Byte, addrType: Byte, addr: VariantAddress, port: Word)
  datatype CommandReply =
    CommandReply(version: Byte, status: Byte, addrType: Byte, addr: VariantAddress, port: Word)

  predicate IsVersionSupport(b: Byte) {
    b == VERSION_5
  }

  predicate IsAuthMethodExist(b: Byte) {
    b == NO_AUTH || b == AUTH_GSSAPI || b == AUTH_LOGIN_PASS
  }

  predicate IsCommandExist(b: Byte) {
    b == TCP_PORT_BINDING || b == TCP_STREAM || b == UDP_PORT_BINDING
  }

  predicate IsAddressTypeExist(b: Byte) {
    b == IPV4_ADDR || b == DOMAIN_ADDR || b == IPV6_ADDR
  }

  /** The type byte names the alternative that the variant holds. */
  predicate TagMatches(addrType: Byte, addr: VariantAddress) {
    match addr
    case IPv4(_) => addrType == IPV4_ADDR
    case Domain(_) => addrType == DOMAIN_ADDR
    case IPv6(_) => addrType == IPV6_ADDR
  }

  /** What `std::get` in the encoders demands: a type byte that exists names the
      alternative held. A type byte that does not exist is refused before `std::get`. */
  predicate Gettable(addrType: Byte, addr: VariantAddress) {
    IsAddressTypeExist(addrType) ==> TagMatches(addrType, addr)
  }
}
