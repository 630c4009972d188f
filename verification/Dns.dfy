/** DNS replies as values: the parts of a message that the resolvers look at. */
module Dns {
  const RCODE_SUCCESS: nat := 0
  const RCODE_SERVFAIL: nat := 2
  const RCODE_NXDOMAIN: nat := 3
  const RCODE_REFUSED: nat := 5

  const TYPE_A: nat := 1
  const TYPE_NS: nat := 2
  const TYPE_SOA: nat := 6
  const TYPE_PTR: nat := 12
  const TYPE_AAAA: nat := 28
  const TYPE_OPT: nat := 41

  const MAX_UINT32: nat := 0xFFFF_FFFF

  type uint32 = x: nat | x <= MAX_UINT32
  type uint16 = x: nat | x <= 0xFFFF

  /** The Go type of a record, which the code inspects apart from the type number in its header. */
  datatype Body = A(address: string) | AAAA | CNAME(target: string) | NS(host: string) | SOA(minimum: uint32) | Other

  datatype Record = Record(owner: string, rrtype: uint16, ttl: uint32, body: Body)

  datatype Head = Head(rcode: nat, truncated: bool, authoritative: bool, questions: seq<uint16>)

  datatype Reply = Reply(head: Head, answer: seq<Record>, ns: seq<Record>, extra: seq<Record>)
}
