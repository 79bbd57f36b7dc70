/**
  Properties that span the layers: the dashboard's switch against the API
  route and the counters, the stats reply of the API as the dashboard reads
  it, and a domain from a block list as the DNS handler then answers it.
*/
module EndToEnd {
  import opened Results
  import opened Dns
  import opened Record
  import opened MemCache
  import opened Utils
  import Stats
  import Api
  import Dashboard
  import Blocker
  import Handler

  /** Flipping the dashboard switch to `b`: the token it sends is accepted,
      the counters' flag reads `b` afterwards, and so does the page, which
      takes the flag from the reply. */
  lemma SwitchRoundTrip(b: bool, s: Stats.Stats, v: Dashboard.View)
    requires s.active == 0 || s.active == 1
    ensures var (resp, s1) := Api.PutActive(Dashboard.ActiveToken(b), "1", s);
      && resp.status == Api.StatusOK
      && resp.body == Api.ActiveBody(b)
      && Stats.IsActive(s1) == b
      && Dashboard.OnActiveResponse(v, resp.body.active).active == b
  {
    var (resp, s1) := Api.PutActive(Dashboard.ActiveToken(b), "1", s);
    if b {
      assert Dashboard.ActiveToken(b) == "On";
    } else {
      assert Dashboard.ActiveToken(b) == "Off";
    }
  }

  /** The `stats` object of `GET /stats` (`Stats.Dump`) as the page reads it;
      the buffer is always present, as `Qps` copies it into a fresh slice. */
  function Dump(s: Stats.Stats): Dashboard.StatsData {
    Dashboard.StatsData(Some(s.qps), s.timeStarted, s.lastTime, s.domainCount,
                        s.domainBlocked, s.queryCount, s.queryBlocked)
  }

  /** The page shows the service's counters as `Dump` reports them: the
      totals and the buffer are copied, and once a query was counted the
      percentage is the blocked share of all queries. */
  lemma DumpShown(v: Dashboard.View, s: Stats.Stats)
    ensures var r := Dashboard.FetchStats(v, Dump(s));
      && r.queryTotal == s.queryCount && r.queryBlocked == s.queryBlocked
      && r.numDomainTotal == s.domainCount && r.numDomainBlocked == s.domainBlocked
      && r.qps == Some(s.qps) && r.lastUpdated == s.lastTime
      && (s.queryCount > 0 ==> r.percentageBlocked * (s.queryCount as real) == (s.queryBlocked as real) * 100.0)
      && (s.queryCount <= 0 ==> r.percentageBlocked == v.percentageBlocked)
  {
  }

  /** A stats reply from the service always ends loading and charts the
      buffer: the second `lastTime - |qps| + i` with count `qps[i]` for
      each positive slot `i`, in slot order, and nothing else. */
  lemma FetchedStatsCharted(v: Dashboard.View, s: Stats.Stats, i: int)
    requires 0 <= i < |s.qps| && s.qps[i] > 0
    ensures var r := Dashboard.FetchStats(v, Dump(s));
      && !r.loading
      && r.chart == Some(Dashboard.ChartOf(s.qps, s.lastTime))
      && Dashboard.Point(s.lastTime - |s.qps| + i, s.qps[i]) in Dashboard.Points(s.qps, s.lastTime - |s.qps|)
      && Dashboard.Increasing(Dashboard.Points(s.qps, s.lastTime - |s.qps|))
  {
    Dashboard.PointsComplete(s.qps, s.lastTime - |s.qps|, i);
    Dashboard.PointsIncreasing(s.qps, s.lastTime - |s.qps|);
  }

  /** A domain a block list names, not whitelisted and not cached before
      the load, is answered with the blocked reply while the proxy is
      active; with the hosts file off the request still goes upstream and
      the client gets a second reply. */
  lemma ListedDomainBlocked(cfg: Handler.Config, net: string, req: Msg, st: Blocker.State,
                            lines: seq<string>, loadedAt: int, stats: Stats.Stats,
                            h: Handler.HostsEnv, upstream: Handler.Upstream, now: int)
    requires |req.question| > 0 && (forall k :: k in h.m <==> k in h.order)
    requires st.cache.capacity == 0
    requires UnFqdn(req.question[0].name) in Blocker.ListedDomains(lines) - st.whitelist
    requires UnFqdn(req.question[0].name) !in st.cache.records
    requires Stats.IsActive(stats) && IsIPQuery(req.question[0]) > 0 && !cfg.hostsEnable
    ensures var cache := Blocker.ParseHostFile(st, lines, loadedAt).cache;
      var r := Handler.Do(cfg, net, req, cache, stats, h, upstream, now);
      && |r.writes| == 2
      && r.writes[0] == Handler.BlockedReply(cfg, req, IsIPQuery(req.question[0]))
      && r.stats.queryBlocked == stats.queryBlocked + 1
  {
    var cache := Blocker.ParseHostFile(st, lines, loadedAt).cache;
    var key := UnFqdn(req.question[0].name);
    Blocker.ParseHostFileKeys(st, lines, loadedAt);
    Blocker.ParseHostFileAddsBlocked(st, lines, loadedAt);
    assert key in cache.records;
    assert cache.records[key].blocked && !Expired(cache.records[key], now);
    Handler.BlockedHitFallsThrough(cfg, net, req, cache, stats, h, upstream, now);
  }

  /** With the corrected loader every domain a block list names and the
      whitelist does not is answered with the blocked reply while the proxy
      is active, whatever the cache held before the load, provided the
      blocked records already there never expire, as none that the program
      makes does. */
  lemma ListedDomainBlockedReplacing(cfg: Handler.Config, net: string, req: Msg, st: Blocker.State,
                                     lines: seq<string>, loadedAt: int, stats: Stats.Stats,
                                     h: Handler.HostsEnv, upstream: Handler.Upstream, now: int)
    requires |req.question| > 0 && (forall k :: k in h.m <==> k in h.order)
    requires st.cache.capacity == 0
    requires forall k :: k in st.cache.records && st.cache.records[k].blocked ==> st.cache.records[k].noExpire
    requires UnFqdn(req.question[0].name) in Blocker.ListedDomains(lines) - st.whitelist
    requires Stats.IsActive(stats) && IsIPQuery(req.question[0]) > 0 && !cfg.hostsEnable
    ensures var cache := Blocker.ParseHostFileReplacing(st, lines, loadedAt).cache;
      var r := Handler.Do(cfg, net, req, cache, stats, h, upstream, now);
      && |r.writes| == 2
      && r.writes[0] == Handler.BlockedReply(cfg, req, IsIPQuery(req.question[0]))
      && r.stats.queryBlocked == stats.queryBlocked + 1
  {
    var cache := Blocker.ParseHostFileReplacing(st, lines, loadedAt).cache;
    var key := UnFqdn(req.question[0].name);
    Blocker.ReplacingBlocksListed(st, lines, loadedAt, key);
    Blocker.ReplacingRecords(st, lines, loadedAt, key);
    assert cache.records[key].blocked && !Expired(cache.records[key], now);
    Handler.BlockedHitFallsThrough(cfg, net, req, cache, stats, h, upstream, now);
  }
}
