/**
  The IP address and DNS message shapes the proxy handles, abstracted from
  the Go `net` package and the miekg/dns library: only the parts the proxy
  reads or writes are kept.
*/
module Dns {
  import opened Results

  /** An IP address as raw bytes: 4 for IPv4, 16 for IPv6 or v4-in-v6. */
  type Ip = seq<int>

  /** `net.IPv4len` and `net.IPv6len`. */
  const IPv4Len: nat := 4
  const IPv6Len: nat := 16

  /** The 12-byte prefix of an IPv4 address held in IPv6 form. */
  const V4InV6Prefix: seq<int> := [0, 0, 0, 0, 0, 0, 0, 0, 0, 0, 0xff, 0xff]

  /** `net.IP.To4`: the 4-byte form of an IPv4 address, if it is one. */
  function To4(ip: Ip): (r: Option<Ip>)
    ensures r.Some? ==> |r.value| == IPv4Len
    ensures |ip| == IPv4Len ==> r == Some(ip)
    ensures r.Some? && |ip| == IPv6Len ==> ip == V4InV6Prefix + r.value
    ensures |ip| != IPv4Len && |ip| != IPv6Len ==> r.None?
  {
    if |ip| == IPv4Len then Some(ip)
    else if |ip| == IPv6Len && ip[..12] == V4InV6Prefix then
      assert ip == ip[..12] + ip[12..];
      Some(ip[12..])
    else None
  }

  /** `net.IP.To16`: the 16-byte form of any well-formed address. */
  function To16(ip: Ip): (r: Option<Ip>)
    ensures r.Some? <==> |ip| == IPv4Len || |ip| == IPv6Len
    ensures r.Some? ==> |r.value| == IPv6Len && To4(r.value) == To4(ip)
    ensures |ip| == IPv6Len ==> r == Some(ip)
    ensures |ip| == IPv4Len ==> r == Some(V4InV6Prefix + ip)
  {
    if |ip| == IPv4Len then Some(V4InV6Prefix + ip)
    else if |ip| == IPv6Len then Some(ip)
    else None
  }

  /** The address 0.0.0.0 and the address ::, the proxy's null routes. */
  const NullRoute: Ip := [0, 0, 0, 0]
  const NullRouteV6: Ip := [0, 0, 0, 0, 0, 0, 0, 0, 0, 0, 0, 0, 0, 0, 0, 0]

  /** Resource record types, the INET class and the response codes used. */
  const TypeA: nat := 1
  const TypeAAAA: nat := 28
  const ClassINET: nat := 1
  const RcodeSuccess: nat := 0
  const RcodeServerFailure: nat := 2
  const RcodeNameError: nat := 3

  datatype Rdata = AData(a: Ip) | AaaaData(aaaa: Ip) | OtherData

  /** A resource record: header fields and its data. */
  datatype RR = RR(name: string, rrtype: nat, rrclass: nat, ttl: nat, data: Rdata)

  datatype Question = Question(name: string, qtype: nat, qclass: nat)

  /** A DNS message, reduced to what the proxy reads or writes. */
  datatype Msg = Msg(
    id: nat,
    response: bool,
    rcode: nat,
    truncated: bool,
    question: seq<Question>,
    answer: seq<RR>)

  /** `new(dns.Msg)`. */
  const EmptyMsg := Msg(0, false, RcodeSuccess, false, [], [])

  /** miekg/dns `Msg.SetReply` on a fresh message: a success response to
      `req`, with its id and its first question. */
  function SetReply(req: Msg): (m: Msg)
    ensures m.id == req.id && m.response && m.rcode == RcodeSuccess
    ensures m.answer == [] && !m.truncated
    ensures |req.question| > 0 ==> m.question == [req.question[0]]
  {
    EmptyMsg.(id := req.id, response := true,
              question := if |req.question| > 0 then [req.question[0]] else [])
  }

  /** miekg/dns `Msg.SetRcode` on a fresh message: `SetReply` with the
      given response code. */
  function SetRcode(req: Msg, rcode: nat): (m: Msg)
    ensures m.id == req.id && m.response && m.rcode == rcode && m.answer == []
  {
    SetReply(req).(rcode := rcode)
  }
}
