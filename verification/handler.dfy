/**
  The decision logic of `DNSHandler.do` (resolver/handler.go): the cache
  stage, the hosts stage and upstream resolution with its TCP retry and
  cache insert. Every reply written to the client is collected in order,
  and so is the transport of every upstream lookup; the upstream itself is
  a parameter answering a lookup over a transport, and the clock is the
  instant `now`.
*/
module Handler {
  import opened Results
  import opened Dns
  import opened Text
  import opened Record
  import opened MemCache
  import opened Utils
  import Stats
  import Hosts

  /** The fields of `DNSResolverConfig` the handler reads: the reply TTL in
      seconds, the blocked-reply style and whether the hosts file is used. */
  datatype Config = Config(ttl: nat, nxDomainOnBlock: bool, hostsEnable: bool)

  /** The outcome of one `Resolver.Lookup`. */
  datatype Lookup = Reply(msg: Msg) | LookupError

  /** `Resolver.Lookup` of the current request over a transport. */
  type Upstream = string -> Lookup

  /** The hosts file as the handler sees it: the parser, the map, the order
      Go iterates the map in and the registrable-domain function; the order lists exactly the keys of
      the map. */
  datatype HostsEnv = HostsEnv(parseIP: string -> Option<Ip>, m: map<string, string>, order: seq<string>, etld1: string -> Option<string>)

  /** What one request does: the replies written, in order, the transports
      of the upstream lookups, in order, and the cache and counters after. */
  datatype Outcome = Outcome(writes: seq<Msg>, lookups: seq<string>, cache: Cache, stats: Stats.Stats)

  /** The textual question of the log lines: names of class and type. */
  datatype QuestionText = QuestionText(qname: string, qtype: string, qclass: string)

  /** `Question.String`: name, class and type, separated by one space. */
  function QuestionString(q: QuestionText): (r: string)
    ensures |r| == |q.qname| + |q.qclass| + |q.qtype| + 2
  {
    q.qname + " " + q.qclass + " " + q.qtype
  }

  /** The three parts come back by splitting on spaces when none of them
      holds a space. */
  lemma QuestionStringSplits(q: QuestionText)
    requires ' ' !in q.qname && ' ' !in q.qclass && ' ' !in q.qtype
    ensures Split(QuestionString(q), ' ') == [q.qname, q.qclass, q.qtype]
  {
    var parts := [q.qname, q.qclass, q.qtype];
    assert Join(parts, ' ') == QuestionString(q) by {
      assert parts[1..][1..] == [q.qtype];
      assert Join(parts[1..], ' ') == q.qclass + [' '] + q.qtype;
      assert Join(parts, ' ') == q.qname + [' '] + (q.qclass + [' '] + q.qtype);
    }
    SplitJoin(parts, ' ');
  }

  /** The smallest TTL for caching: starting from `limit`, every answer
      whose TTL (in seconds, scaled by `Second`) is positive and smaller
      takes its place. */
  function MinTtl(limit: int, answers: seq<RR>): (t: int)
    ensures t <= limit
    ensures forall i :: 0 <= i < |answers| && answers[i].ttl > 0 ==> t <= answers[i].ttl * Second
    ensures t == limit || exists i :: 0 <= i < |answers| && answers[i].ttl > 0 && t == answers[i].ttl * Second
  {
    if |answers| == 0 then limit
    else
      var t := MinTtl(limit, answers[..|answers| - 1]);
      var c := answers[|answers| - 1].ttl * Second;
      if c > 0 && c < t then c else t
  }

  /** The same choice as the loop of `do` computes it. */
  method ChooseTtl(limit: int, answers: seq<RR>) returns (t: int)
    ensures t == MinTtl(limit, answers)
  {
    t := limit;
    var i := 0;
    while i < |answers|
      invariant 0 <= i <= |answers|
      invariant t == MinTtl(limit, answers[..i])
    {
      var candidate := answers[i].ttl * Second;
      if candidate > 0 && candidate < t {
        t := candidate;
      }
      assert answers[..i + 1][..i] == answers[..i];
      i := i + 1;
    }
    assert answers[..i] == answers;
  }

  /** The answer record for an address of the query's family, named as the
      question is named (fully qualified). */
  function AddressRR(q: Question, ipq: int, ttl: nat, ip: Ip): (rr: RR)
    requires ipq == IPv4Query || ipq == IPv6Query
    ensures rr.name == q.name && rr.rrclass == ClassINET && rr.ttl == ttl
    ensures ipq == IPv4Query ==> rr.rrtype == TypeA && rr.data == AData(ip)
    ensures ipq == IPv6Query ==> rr.rrtype == TypeAAAA && rr.data == AaaaData(ip)
  {
    if ipq == IPv4Query then RR(q.name, TypeA, ClassINET, ttl, AData(ip))
    else RR(q.name, TypeAAAA, ClassINET, ttl, AaaaData(ip))
  }

  /** The reply to a blocked cache hit: a name error without answers when
      `nxDomainOnBlock`, otherwise one record pointing at the null route of
      the query's family, with the configured TTL. */
  function BlockedReply(cfg: Config, req: Msg, ipq: int): (m: Msg)
    requires |req.question| > 0
    ensures m.id == req.id && m.response
    ensures cfg.nxDomainOnBlock ==> m.rcode == RcodeNameError && m.answer == []
    ensures !cfg.nxDomainOnBlock ==> m.rcode == RcodeSuccess
    ensures !cfg.nxDomainOnBlock && ipq == IPv4Query ==>
      m.answer == [RR(req.question[0].name, TypeA, ClassINET, cfg.ttl, AData(NullRoute))]
    ensures !cfg.nxDomainOnBlock && ipq == IPv6Query ==>
      m.answer == [RR(req.question[0].name, TypeAAAA, ClassINET, cfg.ttl, AaaaData(NullRouteV6))]
    ensures ipq != IPv4Query && ipq != IPv6Query ==> m.answer == []
  {
    if cfg.nxDomainOnBlock then SetRcode(req, RcodeNameError)
    else if ipq == IPv4Query then SetReply(req).(answer := [AddressRR(req.question[0], ipq, cfg.ttl, NullRoute)])
    else if ipq == IPv6Query then SetReply(req).(answer := [AddressRR(req.question[0], ipq, cfg.ttl, NullRouteV6)])
    else SetReply(req)
  }

  /** The reply built from hosts-file addresses: one record per address, in
      order, each with the configured TTL. */
  function HostsReply(cfg: Config, req: Msg, ipq: int, ips: seq<Ip>): (m: Msg)
    requires |req.question| > 0
    requires ipq == IPv4Query || ipq == IPv6Query
    ensures m.id == req.id && m.response && m.rcode == RcodeSuccess
    ensures |m.answer| == |ips|
    ensures forall i :: 0 <= i < |ips| ==> m.answer[i] == AddressRR(req.question[0], ipq, cfg.ttl, ips[i])
  {
    SetReply(req).(answer := seq(|ips|, i requires 0 <= i < |ips| => AddressRR(req.question[0], ipq, cfg.ttl, ips[i])))
  }

  /** `HandleFailed`: a server-failure reply to the request, no answers. */
  function HandleFailed(req: Msg): (m: Msg)
    ensures m.id == req.id && m.response && m.rcode == RcodeServerFailure && m.answer == []
  {
    SetRcode(req, RcodeServerFailure)
  }

  /** The cache stage (only for A and AAAA questions): a miss or an expired
      record goes on; a live unblocked record is replied with the request's
      id and ends the request; a live blocked record is answered with the
      blocked reply, counted, and the request goes on. */
  function CacheStage(cfg: Config, req: Msg, key: string, ipq: int, o: Outcome, now: int)
    : (r: (Outcome, bool))
    requires |req.question| > 0
    ensures r.0.lookups == o.lookups && r.0.stats.queryCount == o.stats.queryCount
    ensures |o.writes| <= |r.0.writes| <= |o.writes| + 1 && (r.1 ==> |r.0.writes| == |o.writes| + 1)
    ensures ipq <= 0 ==> r == (o, false)
    ensures ipq > 0 && key !in o.cache.records ==> r == (o, false)
    ensures ipq > 0 && key in o.cache.records && !Expired(o.cache.records[key], now) ==>
      var rec := o.cache.records[key];
      && r.0.cache == o.cache
      && (!rec.blocked ==> r == (o.(writes := o.writes + [rec.msg.(id := req.id)]), true))
      && (rec.blocked ==> !r.1 && r.0.writes == o.writes + [BlockedReply(cfg, req, ipq)]
                          && r.0.stats == Stats.AddQueryBlocked(o.stats))
    ensures ipq > 0 && key in o.cache.records && Expired(o.cache.records[key], now) ==>
      r == (o.(cache := Remove(o.cache, key)), false)
  {
    if ipq <= 0 then (o, false)
    else
      var got := Get(o.cache, key, now);
      var o1 := o.(cache := got.0);
      match got.1
      case Failure(_) => (o1, false)
      case Success(rec) =>
        if !rec.blocked then (o1.(writes := o1.writes + [rec.msg.(id := req.id)]), true)
        else (o1.(writes := o1.writes + [BlockedReply(cfg, req, ipq)],
                  stats := Stats.AddQueryBlocked(o1.stats)), false)
  }

  /** The hosts stage (hosts enabled, A and AAAA only): addresses found for
      the family are replied, cached as a custom record for the configured
      TTL and counted as a custom domain, which ends the request; otherwise
      the request goes on untouched. */
  function HostsStage(cfg: Config, req: Msg, key: string, ipq: int, o: Outcome, h: HostsEnv, now: int)
    : (r: (Outcome, bool))
    requires |req.question| > 0 && (forall k :: k in h.m <==> k in h.order)
    requires ipq == NotIPQuery || ipq == IPv4Query || ipq == IPv6Query
    ensures r.0.lookups == o.lookups && r.0.stats.queryCount == o.stats.queryCount
    ensures |o.writes| <= |r.0.writes| <= |o.writes| + 1
    ensures !r.1 ==> r.0 == o
    ensures r.1 <==> cfg.hostsEnable && ipq > 0 && Hosts.Get(h.parseIP, h.m, h.order, h.etld1, key, ipq).1
    ensures r.1 ==>
      var ips := Hosts.Get(h.parseIP, h.m, h.order, h.etld1, key, ipq).0;
      && r.0.writes == o.writes + [HostsReply(cfg, req, ipq, ips)]
      && r.0.cache == Set(o.cache, key, NewCustomRecord(HostsReply(cfg, req, ipq, ips), cfg.ttl * Second, now)).0
      && r.0.stats == Stats.AddDomain(o.stats, Stats.Custom)
  {
    if !(cfg.hostsEnable && ipq > 0) then (o, false)
    else
      var found := Hosts.Get(h.parseIP, h.m, h.order, h.etld1, key, ipq);
      var ips := found.0;
      if !found.1 then (o, false)
      else
        var mesg := HostsReply(cfg, req, ipq, ips);
        (Outcome(o.writes + [mesg], o.lookups,
                 Set(o.cache, key, NewCustomRecord(mesg, cfg.ttl * Second, now)).0,
                 Stats.AddDomain(o.stats, Stats.Custom)), true)
  }

  /** Writing the upstream reply, then caching it for the smallest TTL and
      counting a normal domain when the question is A or AAAA and the reply
      has answers. */
  function Deliver(cfg: Config, key: string, ipq: int, m: Msg, o: Outcome, now: int): (r: Outcome)
    ensures r.writes == o.writes + [m] && r.lookups == o.lookups
    ensures !(ipq > 0 && |m.answer| > 0) ==> r.cache == o.cache && r.stats == o.stats
    ensures ipq > 0 && |m.answer| > 0 ==>
      && r.cache == Set(o.cache, key, NewResolvedRecord(m, MinTtl(cfg.ttl * Second, m.answer), now)).0
      && r.stats == Stats.AddDomain(o.stats, Stats.Normal)
  {
    var ttl := MinTtl(cfg.ttl * Second, m.answer);
    var o1 := o.(writes := o.writes + [m]);
    if ipq > 0 && |m.answer| > 0 then
      o1.(cache := Set(o1.cache, key, NewResolvedRecord(m, ttl, now)).0,
          stats := Stats.AddDomain(o1.stats, Stats.Normal))
    else o1
  }

  /** Upstream resolution: a lookup over the request's transport; an error
      replies with a server failure; a truncated reply over UDP is looked
      up once more over TCP, whose error also replies with a server
      failure. Exactly one reply is written either way. */
  function Resolve(cfg: Config, net: string, req: Msg, key: string, ipq: int, o: Outcome,
                   upstream: Upstream, now: int): (r: Outcome)
    ensures |r.writes| == |o.writes| + 1 && r.writes[..|o.writes|] == o.writes
    ensures var retry := upstream(net).Reply? && upstream(net).msg.truncated && net == "udp";
      r.lookups == o.lookups + (if retry then [net, "tcp"] else [net])
    ensures upstream(net).LookupError? ==> r == o.(writes := o.writes + [HandleFailed(req)], lookups := o.lookups + [net])
    ensures Last(r.writes) == HandleFailed(req) || (exists t :: upstream(t).Reply? && Last(r.writes) == upstream(t).msg)
    ensures ipq <= 0 ==> r.cache == o.cache && r.stats == o.stats
  {
    var o1 := o.(lookups := o.lookups + [net]);
    match upstream(net)
    case LookupError => o1.(writes := o1.writes + [HandleFailed(req)])
    case Reply(m) =>
      if m.truncated && net == "udp" then
        var o2 := o1.(lookups := o1.lookups + ["tcp"]);
        match upstream("tcp")
        case LookupError => o2.(writes := o2.writes + [HandleFailed(req)])
        case Reply(m2) => Deliver(cfg, key, ipq, m2, o2, now)
      else Deliver(cfg, key, ipq, m, o1, now)
  }

  /** Which reply `Resolve` delivers: the first reply when it needs no
      retry, the TCP reply after a truncated UDP one, and a server failure
      when the TCP retry fails. */
  lemma ResolveDelivers(cfg: Config, net: string, req: Msg, key: string, ipq: int, o: Outcome,
                        upstream: Upstream, now: int)
    ensures var retry := upstream(net).Reply? && upstream(net).msg.truncated && net == "udp";
      !retry && upstream(net).Reply? ==>
        Resolve(cfg, net, req, key, ipq, o, upstream, now) == Deliver(cfg, key, ipq, upstream(net).msg, o.(lookups := o.lookups + [net]), now)
    ensures var retry := upstream(net).Reply? && upstream(net).msg.truncated && net == "udp";
      retry && upstream("tcp").Reply? ==>
        Resolve(cfg, net, req, key, ipq, o, upstream, now) == Deliver(cfg, key, ipq, upstream("tcp").msg, o.(lookups := o.lookups + [net, "tcp"]), now)
    ensures var retry := upstream(net).Reply? && upstream(net).msg.truncated && net == "udp";
      retry && upstream("tcp").LookupError? ==>
        Resolve(cfg, net, req, key, ipq, o, upstream, now) == o.(writes := o.writes + [HandleFailed(req)], lookups := o.lookups + [net, "tcp"])
  {
  }

  /** `DNSHandler.do` for one request over transport `net`: the query is
      counted; while the proxy is active the cache stage and then the hosts
      stage may end the request; otherwise it is resolved upstream. The
      request carries a question, as `do` indexes the first one. */
  function Do(cfg: Config, net: string, req: Msg, cache: Cache, stats: Stats.Stats,
              h: HostsEnv, upstream: Upstream, now: int): (r: Outcome)
    requires |req.question| > 0 && (forall k :: k in h.m <==> k in h.order)
    ensures r.stats.queryCount == stats.queryCount + 1
    ensures 1 <= |r.writes| <= 2
    ensures |r.lookups| <= 2
  {
    var st := Stats.AddQuery(stats);
    var q := req.question[0];
    var key := UnFqdn(q.name);
    var ipq := IsIPQuery(q);
    var o := Outcome([], [], cache, st);
    if !Stats.IsActive(st) then Resolve(cfg, net, req, key, ipq, o, upstream, now)
    else Serve(cfg, net, req, key, ipq, o, h, upstream, now)
  }

  /** The path of an active proxy: the cache stage, then the hosts stage,
      then upstream, each stage possibly ending the request. A blocked
      cache hit may add a second reply; nothing changes the query count. */
  function Serve(cfg: Config, net: string, req: Msg, key: string, ipq: int, o: Outcome,
                 h: HostsEnv, upstream: Upstream, now: int): (r: Outcome)
    requires |req.question| > 0 && (forall k :: k in h.m <==> k in h.order)
    requires ipq == NotIPQuery || ipq == IPv4Query || ipq == IPv6Query
    ensures r.stats.queryCount == o.stats.queryCount
    ensures |o.writes| + 1 <= |r.writes| <= |o.writes| + 2
    ensures |r.lookups| <= |o.lookups| + 2
  {
    var c := CacheStage(cfg, req, key, ipq, o, now);
    if c.1 then c.0
    else
      var hs := HostsStage(cfg, req, key, ipq, c.0, h, now);
      if hs.1 then hs.0
      else Resolve(cfg, net, req, key, ipq, hs.0, upstream, now)
  }

  /** While the proxy is switched off, neither the cache nor the hosts file
      is consulted: the request goes straight upstream from the cache it
      found. */
  lemma InactiveGoesUpstream(cfg: Config, net: string, req: Msg, cache: Cache, stats: Stats.Stats,
                             h: HostsEnv, upstream: Upstream, now: int)
    requires |req.question| > 0 && (forall k :: k in h.m <==> k in h.order)
    requires !Stats.IsActive(stats)
    ensures var r := Do(cfg, net, req, cache, stats, h, upstream, now);
      && |r.writes| == 1 && r.lookups[0] == net
      && r == Resolve(cfg, net, req, UnFqdn(req.question[0].name), IsIPQuery(req.question[0]),
                      Outcome([], [], cache, Stats.AddQuery(stats)), upstream, now)
  {
  }

  /** An upstream error while switched off gives exactly one server-failure
      reply and changes neither the cache nor anything but the query count. */
  lemma UpstreamErrorFails(cfg: Config, net: string, req: Msg, cache: Cache, stats: Stats.Stats,
                           h: HostsEnv, upstream: Upstream, now: int)
    requires |req.question| > 0 && (forall k :: k in h.m <==> k in h.order)
    requires !Stats.IsActive(stats) && upstream(net).LookupError?
    ensures Do(cfg, net, req, cache, stats, h, upstream, now)
      == Outcome([HandleFailed(req)], [net], cache, Stats.AddQuery(stats))
  {
  }

  /** An upstream reply that needs no retry, while switched off, is written
      to the client as it came; when the question is A or AAAA and the
      reply has answers it is cached under the unqualified name for the
      smallest answer TTL and counted as a normal domain, and otherwise the
      cache is left alone. */
  lemma UpstreamReplyDelivered(cfg: Config, net: string, req: Msg, cache: Cache, stats: Stats.Stats,
                               h: HostsEnv, upstream: Upstream, now: int)
    requires |req.question| > 0 && (forall k :: k in h.m <==> k in h.order)
    requires !Stats.IsActive(stats) && upstream(net).Reply?
    requires !(upstream(net).msg.truncated && net == "udp")
    ensures var r := Do(cfg, net, req, cache, stats, h, upstream, now);
      var m := upstream(net).msg;
      var ipq := IsIPQuery(req.question[0]);
      && r.writes == [m] && r.lookups == [net]
      && (ipq > 0 && |m.answer| > 0 ==>
           && r.cache == Set(cache, UnFqdn(req.question[0].name),
                             NewResolvedRecord(m, MinTtl(cfg.ttl * Second, m.answer), now)).0
           && r.stats == Stats.AddDomain(Stats.AddQuery(stats), Stats.Normal))
      && (!(ipq > 0 && |m.answer| > 0) ==> r.cache == cache && r.stats == Stats.AddQuery(stats))
  {
  }

  /** A truncated UDP reply, while switched off, is replaced by the TCP
      lookup's reply: only that one is written, after lookups over UDP and
      then TCP. */
  lemma TruncatedUdpRetried(cfg: Config, req: Msg, cache: Cache, stats: Stats.Stats,
                            h: HostsEnv, upstream: Upstream, now: int)
    requires |req.question| > 0 && (forall k :: k in h.m <==> k in h.order)
    requires !Stats.IsActive(stats)
    requires upstream("udp").Reply? && upstream("udp").msg.truncated && upstream("tcp").Reply?
    ensures var r := Do(cfg, "udp", req, cache, stats, h, upstream, now);
      r.writes == [upstream("tcp").msg] && r.lookups == ["udp", "tcp"]
  {
  }

  /** A live unblocked cache hit replies with the cached message under the
      request's id, once, and nothing is looked up or changed. */
  lemma UnblockedHitReplies(cfg: Config, net: string, req: Msg, cache: Cache, stats: Stats.Stats,
                            h: HostsEnv, upstream: Upstream, now: int)
    requires |req.question| > 0 && (forall k :: k in h.m <==> k in h.order)
    requires Stats.IsActive(stats) && IsIPQuery(req.question[0]) > 0
    requires var key := UnFqdn(req.question[0].name);
      key in cache.records && !Expired(cache.records[key], now) && !cache.records[key].blocked
    ensures var rec := cache.records[UnFqdn(req.question[0].name)];
      Do(cfg, net, req, cache, stats, h, upstream, now)
        == Outcome([rec.msg.(id := req.id)], [], cache, Stats.AddQuery(stats))
  {
  }

  /** A live blocked cache hit writes the blocked reply and counts a blocked
      query, but does not end the request: with the hosts file off it goes
      upstream too, so the client gets a second reply. */
  lemma BlockedHitFallsThrough(cfg: Config, net: string, req: Msg, cache: Cache, stats: Stats.Stats,
                               h: HostsEnv, upstream: Upstream, now: int)
    requires |req.question| > 0 && (forall k :: k in h.m <==> k in h.order)
    requires Stats.IsActive(stats) && IsIPQuery(req.question[0]) > 0 && !cfg.hostsEnable
    requires var key := UnFqdn(req.question[0].name);
      key in cache.records && !Expired(cache.records[key], now) && cache.records[key].blocked
    ensures var r := Do(cfg, net, req, cache, stats, h, upstream, now);
      && |r.writes| == 2
      && r.writes[0] == BlockedReply(cfg, req, IsIPQuery(req.question[0]))
      && |r.lookups| >= 1 && r.lookups[0] == net
      && r.stats.queryBlocked == stats.queryBlocked + 1
  {
    var q := req.question[0];
    var o := Outcome([], [], cache, Stats.AddQuery(stats));
    var c := CacheStage(cfg, req, UnFqdn(q.name), IsIPQuery(q), o, now);
    assert c.0.writes == [BlockedReply(cfg, req, IsIPQuery(q))];
  }

  /** A hosts-file hit (hosts on, nothing cached for the name) replies with
      the addresses found, caches them and counts a custom domain, without
      any upstream lookup. */
  lemma HostsHitAnswers(cfg: Config, net: string, req: Msg, cache: Cache, stats: Stats.Stats,
                        h: HostsEnv, upstream: Upstream, now: int)
    requires |req.question| > 0 && (forall k :: k in h.m <==> k in h.order)
    requires Stats.IsActive(stats) && IsIPQuery(req.question[0]) > 0 && cfg.hostsEnable
    requires UnFqdn(req.question[0].name) !in cache.records
    requires Hosts.Get(h.parseIP, h.m, h.order, h.etld1, UnFqdn(req.question[0].name), IsIPQuery(req.question[0])).1
    ensures var r := Do(cfg, net, req, cache, stats, h, upstream, now);
      var ips := Hosts.Get(h.parseIP, h.m, h.order, h.etld1, UnFqdn(req.question[0].name), IsIPQuery(req.question[0])).0;
      && r.writes == [HostsReply(cfg, req, IsIPQuery(req.question[0]), ips)]
      && r.lookups == []
      && r.stats.domainCustom == stats.domainCustom + 1
  {
  }

  /** Only A and AAAA questions touch the cache: any other question leaves
      it exactly as it was. */
  lemma NonAddressQueriesSkipCache(cfg: Config, net: string, req: Msg, cache: Cache, stats: Stats.Stats,
                                   h: HostsEnv, upstream: Upstream, now: int)
    requires |req.question| > 0 && (forall k :: k in h.m <==> k in h.order)
    requires IsIPQuery(req.question[0]) == NotIPQuery
    ensures Do(cfg, net, req, cache, stats, h, upstream, now).cache == cache
  {
  }
}
