/**
  Small helpers of utils/utils.go. `net.ParseIP` and the domain regular
  expression belong to libraries outside this model and are taken as
  function parameters.
*/
module Utils {
  import opened Results
  import opened Dns

  /** The query families `IsIPQuery` reports. */
  const NotIPQuery: int := 0
  const IPv4Query: int := 4
  const IPv6Query: int := 6

  /** `net.ParseIP`: the address bytes, or `None` where Go returns nil. */
  type IpParser = string -> Option<Ip>

  /** `IsIPQuery`: 4 for an INET A question, 6 for an INET AAAA question,
      0 for every other class or type. */
  function IsIPQuery(q: Question): (r: int)
    ensures r == NotIPQuery || r == IPv4Query || r == IPv6Query
    ensures q.qclass != ClassINET ==> r == NotIPQuery
    ensures r == IPv4Query <==> q.qclass == ClassINET && q.qtype == TypeA
    ensures r == IPv6Query <==> q.qclass == ClassINET && q.qtype == TypeAAAA
  {
    if q.qclass != ClassINET then NotIPQuery
    else if q.qtype == TypeA then IPv4Query
    else if q.qtype == TypeAAAA then IPv6Query
    else NotIPQuery
  }

  /** `dns.IsFqdn`: the name ends in a dot (escaped dots are not modelled). */
  predicate IsFqdn(s: string) {
    |s| > 0 && s[|s| - 1] == '.'
  }

  /** `dns.Fqdn`: appends the final dot when it is missing. */
  function Fqdn(s: string): (r: string)
    ensures IsFqdn(r)
    ensures IsFqdn(s) ==> r == s
    ensures !IsFqdn(s) ==> |r| == |s| + 1 && r[..|s|] == s
  {
    if IsFqdn(s) then s else s + "."
  }

  /** `UnFqdn`: drops exactly the final character of a fully qualified
      name and is the identity on any other name. */
  function UnFqdn(s: string): (r: string)
    ensures IsFqdn(s) ==> |r| == |s| - 1 && r + [s[|s| - 1]] == s
    ensures !IsFqdn(s) ==> r == s
  {
    if IsFqdn(s) then s[..|s| - 1] else s
  }

  /** `UnFqdn` undoes `Fqdn` on a name that was not fully qualified, and
      `Fqdn` undoes `UnFqdn` on a name with exactly one final dot. */
  lemma UnFqdnInvertsFqdn(s: string)
    ensures !IsFqdn(s) ==> UnFqdn(Fqdn(s)) == s
    ensures IsFqdn(s) && !IsFqdn(UnFqdn(s)) ==> Fqdn(UnFqdn(s)) == s
  {
    if !IsFqdn(s) {
      assert (s + ".")[..|s|] == s;
    }
  }

  /** `IsIP`: the text parses as an address. */
  predicate IsIP(parseIP: IpParser, s: string) {
    parseIP(s).Some?
  }

  /** `IsDomain`: never for text that parses as an address; otherwise the
      verdict of the domain pattern. */
  function IsDomain(parseIP: IpParser, pattern: string -> bool, s: string): (r: bool)
    ensures IsIP(parseIP, s) ==> !r
    ensures r ==> pattern(s)
    ensures !IsIP(parseIP, s) ==> (r <==> pattern(s))
  {
    if IsIP(parseIP, s) then false else pattern(s)
  }
}
