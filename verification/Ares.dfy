/** Status codes, address families and optional values, shared by all parts of the library. */
module Ares {
  import opened Bytes

  datatype Option<T> = None | Some(value: T)

  datatype Status =
    | SUCCESS | ENODATA | ENOTFOUND | ENOTIMP | EBADNAME | EBADRESP | EBADFAMILY | ECONNREFUSED | ETIMEOUT | EOF | EFILE
    | ENOMEM | EDESTRUCTION | ECANCELLED | EBADSTR
    | OtherStatus(code: nat)

  datatype Family = INET | INET6

  /** The family argument of a lookup: one family, AF_UNSPEC, or a family that the library does not know. */
  datatype Want = Only(family: Family) | UNSPEC | UnknownFamily

  /** inet_addr and ares_inet_pton: the address that a text denotes, if any. */
  datatype Conv = Conv(v4: seq<byte> -> Option<seq<byte>>, v6: seq<byte> -> Option<seq<byte>>)

  /** struct ares_addr_port_node: a server with its ports in host order. */
  datatype Node = Node(family: Family, addr: seq<byte>, udp: int, tcp: int)
}
