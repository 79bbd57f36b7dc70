/**
  The hosts-file lookup (hosts/hosts.go): parsing the file into a map from
  lower-case name to address text, the exact and wildcard lookups of
  `FileHosts.Get`, and the address-family filter of `Hosts.Get`. The file
  arrives as its sequence of lines (or `None` when it cannot be opened);
  `net.ParseIP` and `publicsuffix.EffectiveTLDPlusOne` are parameters, and
  so is the order in which Go happens to iterate the map.
*/
module Hosts {
  import opened Results
  import opened Dns
  import opened Text
  import opened Utils

  /** `FileHosts.hosts`: name to address text. */
  type HostsMap = map<string, string>

  /** `publicsuffix.EffectiveTLDPlusOne`, `None` standing for its error. */
  type Etld1 = string -> Option<string>

  /** A parsed line: its address and the names it maps to that address. */
  datatype Entry = Entry(ip: string, names: set<string>)

  /** A line after trimming and turning tabs into spaces. */
  function Normalize(line: string): (t: string)
    ensures '\t' !in t
    ensures |t| == |TrimSpace(line)|
    ensures forall i :: 0 <= i < |t| ==>
      t[i] == (if TrimSpace(line)[i] == '\t' then ' ' else TrimSpace(line)[i])
  {
    ReplaceAll(TrimSpace(line), '\t', ' ')
  }

  /** A piece names a host when it is not blank once trimmed. */
  predicate Named(piece: string) {
    TrimSpace(piece) != ""
  }

  /** The host name a piece gives: trimmed and lower-cased. */
  function NameOf(piece: string): string {
    ToLower(TrimSpace(piece))
  }

  /** The names one piece contributes: its name when it is not blank. */
  function PieceNames(piece: string): (r: set<string>)
    ensures forall d :: d in r ==> |d| > 0 && IsLower(d)
    ensures Named(piece) ==> NameOf(piece) in r
    ensures forall d :: d in r ==> Named(piece) && d == NameOf(piece)
  {
    var d := TrimSpace(piece);
    if d == "" then {} else {ToLower(d)}
  }

  /** The lower-cased, trimmed, non-empty names among `pieces`. */
  function Names(pieces: seq<string>): (r: set<string>)
    ensures forall d :: d in r ==> |d| > 0 && IsLower(d)
  {
    if |pieces| == 0 then {}
    else Names(pieces[..|pieces| - 1]) + PieceNames(pieces[|pieces| - 1])
  }

  /** The names of any one piece are among the names of all of them. */
  lemma {:induction false} NamesCover(pieces: seq<string>, p: string)
    requires p in pieces
    ensures PieceNames(p) <= Names(pieces)
  {
    var n := |pieces| - 1;
    var init := pieces[..n];
    if p != pieces[n] {
      var i :| 0 <= i < |pieces| && pieces[i] == p;
      assert init[i] == p;
      NamesCover(init, p);
    }
  }

  /** Every non-blank piece gives one of `Names(pieces)`. */
  lemma NamesComplete(pieces: seq<string>, p: string)
    requires p in pieces && Named(p)
    ensures NameOf(p) in Names(pieces)
  {
    NamesCover(pieces, p);
  }

  /** Every one of `Names(pieces)` is given by some non-blank piece. */
  lemma {:induction false} NamesSound(pieces: seq<string>, d: string)
    requires d in Names(pieces)
    ensures exists j :: 0 <= j < |pieces| && Named(pieces[j]) && d == NameOf(pieces[j])
  {
    var n := |pieces| - 1;
    var init := pieces[..n];
    assert Names(pieces) == Names(init) + PieceNames(pieces[n]);
    if d in Names(init) {
      NamesSound(init, d);
      var j :| 0 <= j < |init| && Named(init[j]) && d == NameOf(init[j]);
      assert init[j] == pieces[j];
    } else {
      assert Named(pieces[n]) && d == NameOf(pieces[n]);
    }
  }

  /** A name is among `Names(pieces)` exactly when some non-blank piece
      gives it. */
  lemma NamesExactly(pieces: seq<string>, d: string)
    ensures d in Names(pieces) <==> exists j :: 0 <= j < |pieces| && Named(pieces[j]) && d == NameOf(pieces[j])
  {
    if d in Names(pieces) {
      NamesSound(pieces, d);
    }
    if j :| 0 <= j < |pieces| && Named(pieces[j]) && d == NameOf(pieces[j]) {
      NamesComplete(pieces, pieces[j]);
    }
  }

  /** The rule for one line of `Refresh`: comment and empty lines, lines
      with fewer than two space-separated pieces and lines whose first piece
      is not an address are skipped; otherwise every later piece names the
      address. */
  function ParseLine(parseIP: IpParser, line: string): (r: Option<Entry>)
    ensures var t := Normalize(line);
      (HasPrefix(t, "#") || t == "" || |Split(t, ' ')| < 2 || !IsIP(parseIP, Split(t, ' ')[0])) <==> r.None?
    ensures r.Some? ==> r.value.ip == Split(Normalize(line), ' ')[0] && IsIP(parseIP, r.value.ip)
    ensures r.Some? ==> forall d :: d in r.value.names ==> |d| > 0 && IsLower(d)
  {
    var t := Normalize(line);
    if HasPrefix(t, "#") || t == "" then None
    else
      var sli := Split(t, ' ');
      if |sli| < 2 then None
      else if !IsIP(parseIP, sli[0]) then None
      else Some(Entry(sli[0], Names(sli[1..])))
  }

  /** The names a line maps, empty for a skipped line. */
  function Mentions(parseIP: IpParser, line: string): set<string> {
    match ParseLine(parseIP, line)
    case None => {}
    case Some(e) => e.names
  }

  /** The names a parsed line maps are those of the pieces after its
      address. */
  lemma MentionsOfParsed(parseIP: IpParser, line: string)
    requires ParseLine(parseIP, line).Some?
    ensures Mentions(parseIP, line) == Names(Split(Normalize(line), ' ')[1..])
  {
  }

  /** A parsed line maps exactly the names of the pieces after its first:
      every non-blank later piece, trimmed and lower-cased, and nothing
      else. */
  lemma ParseLineNames(parseIP: IpParser, line: string, d: string)
    requires ParseLine(parseIP, line).Some?
    ensures var pieces := Split(Normalize(line), ' ')[1..];
      d in Mentions(parseIP, line) <==>
        exists j :: 0 <= j < |pieces| && Named(pieces[j]) && d == NameOf(pieces[j])
  {
    MentionsOfParsed(parseIP, line);
    NamesExactly(Split(Normalize(line), ' ')[1..], d);
  }

  /** `m` with every one of `names` mapped to `ip`. */
  function Overlay(m: HostsMap, names: set<string>, ip: string): (r: HostsMap)
    ensures r.Keys == m.Keys + names
    ensures forall d :: d in names ==> r[d] == ip
    ensures forall d :: d in m && d !in names ==> r[d] == m[d]
  {
    m + map d | d in names :: ip
  }

  /** Entering one line: each of its names now maps to its address. */
  function ApplyLine(parseIP: IpParser, m: HostsMap, line: string): (r: HostsMap)
    ensures r.Keys == m.Keys + Mentions(parseIP, line)
    ensures forall d :: d in Mentions(parseIP, line) ==> r[d] == ParseLine(parseIP, line).value.ip
    ensures forall d :: d in m && d !in Mentions(parseIP, line) ==> r[d] == m[d]
  {
    match ParseLine(parseIP, line)
    case None => m
    case Some(e) => Overlay(m, e.names, e.ip)
  }

  /** Entering lines in order, each on top of the previous ones. */
  function Load(parseIP: IpParser, m: HostsMap, lines: seq<string>): HostsMap {
    if |lines| == 0 then m
    else ApplyLine(parseIP, Load(parseIP, m, lines[..|lines| - 1]), lines[|lines| - 1])
  }

  /** Every name is non-empty and lower case, and every address parses. */
  predicate WellFormed(parseIP: IpParser, m: HostsMap) {
    forall d :: d in m ==> |d| > 0 && IsLower(d) && IsIP(parseIP, m[d])
  }

  /** `FileHosts.Refresh`: a file that cannot be opened leaves the map as it
      was; otherwise the map is cleared and rebuilt from the lines, so the
      result does not depend on the old map and is well formed. */
  function Refresh(parseIP: IpParser, m: HostsMap, file: Option<seq<string>>): (r: HostsMap)
    ensures file.None? ==> r == m
    ensures file.Some? ==> r == Load(parseIP, map[], file.value) && WellFormed(parseIP, r)
  {
    match file
    case None => m
    case Some(lines) =>
      LoadWellFormed(parseIP, map[], lines);
      Load(parseIP, map[], lines)
  }

  lemma {:induction false} LoadWellFormed(parseIP: IpParser, m: HostsMap, lines: seq<string>)
    requires WellFormed(parseIP, m)
    ensures WellFormed(parseIP, Load(parseIP, m, lines))
  {
    if |lines| > 0 {
      LoadWellFormed(parseIP, m, lines[..|lines| - 1]);
    }
  }

  /** Later lines win: a name maps to the address of the last line that
      mentions it. */
  lemma {:induction false} LastMentionWins(parseIP: IpParser, m: HostsMap, lines: seq<string>, k: nat, d: string)
    requires k < |lines| && d in Mentions(parseIP, lines[k])
    requires forall j :: k < j < |lines| ==> d !in Mentions(parseIP, lines[j])
    ensures d in Load(parseIP, m, lines)
    ensures Load(parseIP, m, lines)[d] == ParseLine(parseIP, lines[k]).value.ip
  {
    var init := lines[..|lines| - 1];
    if k < |lines| - 1 {
      assert forall j :: k < j < |init| ==> init[j] == lines[j];
      LastMentionWins(parseIP, m, init, k, d);
    }
  }

  /** A wildcard host `*.…` of the map whose registrable domain is `sld`. */
  predicate Wildcard(m: HostsMap, host: string, sld: string, etld1: Etld1) {
    host in m && HasPrefix(host, "*.") && etld1(host) == Some(sld)
  }

  /** The first wildcard host in iteration order whose registrable domain
      is `sld`, with its address. */
  function WildcardScan(m: HostsMap, order: seq<string>, sld: string, etld1: Etld1): (r: Option<string>)
    ensures r.Some? ==>
      exists i :: 0 <= i < |order| && Wildcard(m, order[i], sld, etld1) && m[order[i]] == r.value
    ensures r.None? ==>
      forall i :: 0 <= i < |order| ==> !Wildcard(m, order[i], sld, etld1)
  {
    if |order| == 0 then None
    else
      var host := order[0];
      if Wildcard(m, host, sld, etld1) then Some(m[host])
      else
        var r := WildcardScan(m, order[1..], sld, etld1);
        assert forall i :: 1 <= i < |order| ==> order[i] == order[1..][i - 1];
        r
  }

  /** `FileHosts.Get`: the query is lower-cased; an exact hit answers with
      exactly that address; otherwise a wildcard host with the same
      registrable domain answers; otherwise nothing. `order` lists the map's
      keys in Go's iteration order. */
  function FileGet(m: HostsMap, order: seq<string>, etld1: Etld1, domain: string): (r: Option<seq<string>>)
    requires forall k :: k in m <==> k in order
    ensures ToLower(domain) in m ==> r == Some([m[ToLower(domain)]])
    ensures r.Some? ==> |r.value| == 1 && r.value[0] in m.Values
    ensures ToLower(domain) !in m && etld1(ToLower(domain)).None? ==> r.None?
    ensures ToLower(domain) !in m && etld1(ToLower(domain)).Some? ==>
      r == (match WildcardScan(m, order, etld1(ToLower(domain)).value, etld1)
            case None => None
            case Some(ip) => Some([ip]))
  {
    var d := ToLower(domain);
    if d in m then Some([m[d]])
    else match etld1(d)
      case None => None
      case Some(sld) =>
        match WildcardScan(m, order, sld, etld1)
        case None => None
        case Some(ip) => Some([ip])
  }

  /** One address text in its form for `family`: `ParseIP(sip).To4()` for
      family 4, `ParseIP(sip).To16()` for family 6, nothing for any other
      family or for text that does not parse. */
  function Pick(parseIP: IpParser, sip: string, family: int): (ip: Option<Ip>)
    ensures family == IPv4Query && ip.Some? ==> |ip.value| == IPv4Len
    ensures family == IPv6Query && ip.Some? ==> |ip.value| == IPv6Len
    ensures family != IPv4Query && family != IPv6Query ==> ip.None?
    ensures parseIP(sip).None? ==> ip.None?
    ensures parseIP(sip).Some? && family == IPv4Query ==> ip == To4(parseIP(sip).value)
    ensures parseIP(sip).Some? && family == IPv6Query ==> ip == To16(parseIP(sip).value)
  {
    match parseIP(sip)
    case None => None
    case Some(parsed) =>
      if family == IPv4Query then To4(parsed)
      else if family == IPv6Query then To16(parsed)
      else None
  }

  /** The addresses of `sips` that parse for `family`, in their form for
      that family: every address that parses is kept, nothing else is. */
  function Convert(parseIP: IpParser, sips: seq<string>, family: int): (ips: seq<Ip>)
    ensures |ips| <= |sips|
    ensures family != IPv4Query && family != IPv6Query ==> ips == []
    ensures family == IPv4Query ==> forall i :: 0 <= i < |ips| ==> |ips[i]| == IPv4Len
    ensures family == IPv6Query ==> forall i :: 0 <= i < |ips| ==> |ips[i]| == IPv6Len
    ensures forall i :: 0 <= i < |sips| && Pick(parseIP, sips[i], family).Some? ==>
      Pick(parseIP, sips[i], family).value in ips
    ensures forall k :: 0 <= k < |ips| ==>
      exists i :: 0 <= i < |sips| && Pick(parseIP, sips[i], family) == Some(ips[k])
  {
    if |sips| == 0 then []
    else
      var ip := Pick(parseIP, sips[0], family);
      var rest := Convert(parseIP, sips[1..], family);
      assert forall i :: 1 <= i < |sips| ==> sips[i] == sips[1..][i - 1];
      (if ip.Some? then [ip.value] else []) + rest
  }

  /** Conversion keeps the order of the addresses: converting a
      concatenation converts each part in turn. */
  lemma {:induction false} ConvertAppend(parseIP: IpParser, a: seq<string>, b: seq<string>, family: int)
    ensures Convert(parseIP, a + b, family) == Convert(parseIP, a, family) + Convert(parseIP, b, family)
  {
    if |a| == 0 {
      assert a + b == b;
    } else {
      assert (a + b)[0] == a[0];
      assert (a + b)[1..] == a[1..] + b;
      ConvertAppend(parseIP, a[1..], b, family);
    }
  }

  /** `Hosts.Get`: the file answer, converted for the requested family; ok
      exactly when some answered address parses for that family, so a
      family other than 4 or 6 never yields an address. */
  function Get(parseIP: IpParser, m: HostsMap, order: seq<string>, etld1: Etld1, domain: string, family: int)
    : (r: (seq<Ip>, bool))
    requires forall k :: k in m <==> k in order
    ensures r.1 <==> |r.0| > 0
    ensures family != IPv4Query && family != IPv6Query ==> !r.1
    ensures FileGet(m, order, etld1, domain).None? ==> r == ([], false)
    ensures FileGet(m, order, etld1, domain).Some? ==>
      r.0 == Convert(parseIP, FileGet(m, order, etld1, domain).value, family)
    ensures r.1 <==> (FileGet(m, order, etld1, domain).Some? &&
      exists i :: 0 <= i < |FileGet(m, order, etld1, domain).value| &&
        Pick(parseIP, FileGet(m, order, etld1, domain).value[i], family).Some?)
  {
    match FileGet(m, order, etld1, domain)
    case None => ([], false)
    case Some(sips) =>
      var ips := Convert(parseIP, sips, family);
      (ips, |ips| > 0)
  }

  /** An exact hit whose address is IPv4 answers an A question with that
      address in 4-byte form. */
  lemma ExactHitAnswers(parseIP: IpParser, m: HostsMap, order: seq<string>, etld1: Etld1, domain: string)
    requires forall k :: k in m <==> k in order
    requires ToLower(domain) in m
    requires parseIP(m[ToLower(domain)]).Some? && To4(parseIP(m[ToLower(domain)]).value).Some?
    ensures Get(parseIP, m, order, etld1, domain, IPv4Query)
      == ([To4(parseIP(m[ToLower(domain)]).value).value], true)
  {
    var sips := [m[ToLower(domain)]];
    assert FileGet(m, order, etld1, domain) == Some(sips);
    assert sips[1..] == [];
    assert Convert(parseIP, sips, IPv4Query) == [To4(parseIP(sips[0]).value).value] + Convert(parseIP, [], IPv4Query);
    var r := Get(parseIP, m, order, etld1, domain, IPv4Query);
    assert r.0 == Convert(parseIP, sips, IPv4Query);
    assert r.0 == [To4(parseIP(m[ToLower(domain)]).value).value];
    assert r.1;
  }
}
