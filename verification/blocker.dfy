/**
  Loading the blocklists (blocker/blocker.go): the whitelist and blocklist
  seeding of `update`, the skip rule of `fetchSources`, and the per-line
  rule of `parseHostFile`. A list file arrives as its sequence of lines and
  the downloads themselves are left to the caller; every blocked record of
  one load is stamped with the same instant `now`.
*/
module Blocker {
  import opened Results
  import opened Text
  import opened Record
  import opened MemCache
  import Stats

  /** What loading touches: the shared cache, the package-level whitelist
      (names mapped to true) and the counters. */
  datatype State = State(cache: Cache, whitelist: set<string>, stats: Stats.Stats)

  /** One entry of `SourceURLs`. */
  datatype Source = Source(name: string, url: string)

  /** The lists of `BlockerConfig` that `update` reads. */
  datatype Config = Config(sources: seq<Source>, blocklist: seq<string>, whitelist: seq<string>)

  /** The domain a list line names: everything from the first `#` on is
      dropped and the rest trimmed; an empty remainder names nothing;
      otherwise the second whitespace field names the domain when there is
      one, else the only field. */
  function LineDomain(line: string): (r: Option<string>)
    ensures r.None? <==> AllSpace(Split(line, '#')[0])
    ensures r.Some? ==> IsField(r.value)
    ensures r.Some? ==> var f := Fields(TrimSpace(Split(line, '#')[0]));
      (|f| >= 2 ==> r.value == f[1]) && (|f| == 1 ==> r.value == f[0])
  {
    var l := TrimSpace(Split(line, '#')[0]);
    if |l| == 0 then None
    else
      var fields := Fields(l);
      assert !AllSpace(l) by { assert !IsSpace(l[0]); }
      Some(if |fields| > 1 then fields[1] else fields[0])
  }

  /** A domain, if any, as a set: empty or a singleton. */
  function DomainSet(d: Option<string>): set<string> {
    match d
    case None => {}
    case Some(x) => {x}
  }

  /** A line's domain is added when there is one and it is neither cached
      already nor whitelisted. */
  predicate Passes(st: State, d: Option<string>) {
    d.Some? && !Exists(st.cache, d.value) && d.value !in st.whitelist
  }

  /** The body of the line loop of `parseHostFile` once the line's domain
      `d` is known: a passing domain is `Set` as a blocked record and
      counted as a blocked domain, whatever `Set` answers; anything else
      changes nothing. */
  function BlockDomain(st: State, d: Option<string>, now: int): (r: State)
    ensures r.whitelist == st.whitelist
    ensures r.stats.domainBlocked == st.stats.domainBlocked + (if Passes(st, d) then 1 else 0)
    ensures Stats.DomainSum(st.stats) ==> Stats.DomainSum(r.stats)
    ensures !Passes(st, d) ==> r == st
    ensures Passes(st, d) && !Full(st.cache) ==>
      r.cache.records == st.cache.records[d.value := NewBlockedRecord(now)]
    ensures Passes(st, d) && Full(st.cache) ==> r.cache == st.cache
    ensures r.cache.capacity == st.cache.capacity
    ensures forall k :: k in st.cache.records ==> k in r.cache.records && r.cache.records[k] == st.cache.records[k]
  {
    if Passes(st, d) then
      State(Set(st.cache, d.value, NewBlockedRecord(now)).0, st.whitelist,
            Stats.AddDomain(st.stats, Stats.Blocked))
    else st
  }

  /** With an unbounded cache the keys after a domain are the keys before
      it and the domain, unless that is whitelisted. */
  lemma BlockKeys(st: State, d: Option<string>, now: int)
    requires st.cache.capacity == 0
    ensures BlockDomain(st, d, now).cache.records.Keys == st.cache.records.Keys + (DomainSet(d) - st.whitelist)
  {
    if Passes(st, d) {
      assert !Full(st.cache);
    }
  }

  /** With an unbounded cache the cache grows by one key exactly when the
      domain passes. */
  lemma BlockGrows(st: State, d: Option<string>, now: int)
    requires st.cache.capacity == 0
    ensures |BlockDomain(st, d, now).cache.records| == |st.cache.records| + (if Passes(st, d) then 1 else 0)
  {
    if Passes(st, d) {
      assert !Full(st.cache);
      assert d.value !in st.cache.records;
    }
  }

  /** With an unbounded cache a line's domain is added unless it is
      whitelisted, and the cache grows by one key exactly when it passes. */
  lemma BlockUnbounded(st: State, d: Option<string>, now: int)
    requires st.cache.capacity == 0
    ensures BlockDomain(st, d, now).cache.records.Keys == st.cache.records.Keys + (DomainSet(d) - st.whitelist)
    ensures |BlockDomain(st, d, now).cache.records| == |st.cache.records| + (if Passes(st, d) then 1 else 0)
  {
    BlockKeys(st, d, now);
    BlockGrows(st, d, now);
  }

  /** The domains the lines of a list name. */
  function ListedDomains(lines: seq<string>): set<string> {
    if |lines| == 0 then {}
    else ListedDomains(lines[..|lines| - 1]) + DomainSet(LineDomain(lines[|lines| - 1]))
  }

  /** `parseHostFile` over the lines of one list file, in order: it keeps
      every record already cached, the whitelist, and the domain-sum
      invariant of the counters. */
  function ParseHostFile(st: State, lines: seq<string>, now: int): (r: State)
    ensures r.whitelist == st.whitelist
    ensures r.cache.capacity == st.cache.capacity
    ensures forall k :: k in st.cache.records ==> k in r.cache.records && r.cache.records[k] == st.cache.records[k]
    ensures Stats.DomainSum(st.stats) ==> Stats.DomainSum(r.stats)
  {
    if |lines| == 0 then st
    else BlockDomain(ParseHostFile(st, lines[..|lines| - 1], now), LineDomain(lines[|lines| - 1]), now)
  }

  /** Removing `w` distributes over the union of two key sets. */
  lemma UnionMinus(k: set<string>, a: set<string>, b: set<string>, w: set<string>)
    ensures k + (a - w) + (b - w) == k + ((a + b) - w)
  {
  }

  /** With the unbounded cache, the keys after a list are the keys before
      it and the listed domains that are not whitelisted. */
  lemma {:induction false} ParseHostFileKeys(st: State, lines: seq<string>, now: int)
    requires st.cache.capacity == 0
    ensures ParseHostFile(st, lines, now).cache.records.Keys
      == st.cache.records.Keys + (ListedDomains(lines) - st.whitelist)
  {
    if |lines| > 0 {
      var init := lines[..|lines| - 1];
      var d := LineDomain(lines[|lines| - 1]);
      var mid := ParseHostFile(st, init, now);
      assert ParseHostFile(st, lines, now) == BlockDomain(mid, d, now);
      assert ListedDomains(lines) == ListedDomains(init) + DomainSet(d);
      ParseHostFileKeys(st, init, now);
      BlockKeys(mid, d, now);
      UnionMinus(st.cache.records.Keys, ListedDomains(init), DomainSet(d), st.whitelist);
    }
  }

  /** With the unbounded cache, the blocked-domain counter grows by exactly
      the number of keys a list adds. */
  lemma {:induction false} ParseHostFileCounts(st: State, lines: seq<string>, now: int)
    requires st.cache.capacity == 0
    ensures ParseHostFile(st, lines, now).stats.domainBlocked - st.stats.domainBlocked
      == |ParseHostFile(st, lines, now).cache.records| - |st.cache.records|
  {
    if |lines| > 0 {
      var init := lines[..|lines| - 1];
      ParseHostFileCounts(st, init, now);
      BlockGrows(ParseHostFile(st, init, now), LineDomain(lines[|lines| - 1]), now);
    }
  }

  /** With the unbounded cache the program uses, a list file adds exactly
      its listed domains that are not whitelisted, and the blocked-domain
      counter grows by exactly the number of keys added. */
  lemma ParseHostFileAddsListed(st: State, lines: seq<string>, now: int)
    requires st.cache.capacity == 0
    ensures ParseHostFile(st, lines, now).cache.records.Keys
      == st.cache.records.Keys + (ListedDomains(lines) - st.whitelist)
    ensures ParseHostFile(st, lines, now).stats.domainBlocked - st.stats.domainBlocked
      == |ParseHostFile(st, lines, now).cache.records| - |st.cache.records|
  {
    ParseHostFileKeys(st, lines, now);
    ParseHostFileCounts(st, lines, now);
  }

  /** Every cached record is blocked and never expires. */
  predicate AllBlocked(c: Cache) {
    forall k :: k in c.records ==> c.records[k].blocked && c.records[k].noExpire
  }

  /** Loading a list into a cache of blocked records leaves a cache of
      blocked records: every record it adds is a blocked one. */
  lemma {:induction false} ParseHostFileKeepsBlocked(st: State, lines: seq<string>, now: int)
    requires AllBlocked(st.cache)
    ensures AllBlocked(ParseHostFile(st, lines, now).cache)
  {
    if |lines| > 0 {
      ParseHostFileKeepsBlocked(st, lines[..|lines| - 1], now);
    }
  }

  /** Every key a list adds holds a blocked record that never expires,
      whatever the cache held before. */
  lemma {:induction false} ParseHostFileAddsBlocked(st: State, lines: seq<string>, now: int)
    ensures var r := ParseHostFile(st, lines, now);
      forall k :: k !in st.cache.records && k in r.cache.records ==>
        r.cache.records[k].blocked && r.cache.records[k].noExpire
  {
    if |lines| > 0 {
      ParseHostFileAddsBlocked(st, lines[..|lines| - 1], now);
    }
  }

  /** A record already cached when a list is loaded, such as one resolved
      upstream while the proxy was still switched off, is kept as it is:
      even when the list names its domain and the whitelist does not, the
      domain stays unblocked, because the `Exists` test skips it. */
  lemma ResolvedRecordSurvives(st: State, lines: seq<string>, now: int, key: string)
    requires key in ListedDomains(lines) - st.whitelist
    requires key in st.cache.records && !st.cache.records[key].blocked
    ensures var r := ParseHostFile(st, lines, now);
      key in r.cache.records && r.cache.records[key] == st.cache.records[key] && !r.cache.records[key].blocked
  {
  }

  /** The test of the corrected line rule: a domain is blocked unless it is
      whitelisted or already holds a blocked record. */
  predicate NeedsBlock(st: State, d: Option<string>) {
    d.Some? && d.value !in st.whitelist
    && !(d.value in st.cache.records && st.cache.records[d.value].blocked)
  }

  /** The corrected line rule: a domain that needs blocking loses any
      unblocked record it has, then gets a blocked one, and is counted;
      blocked records and the records of other domains stay as they are. */
  function BlockDomainReplacing(st: State, d: Option<string>, now: int): (r: State)
    ensures r.whitelist == st.whitelist && r.cache.capacity == st.cache.capacity
    ensures r.stats.domainBlocked == st.stats.domainBlocked + (if NeedsBlock(st, d) then 1 else 0)
    ensures Stats.DomainSum(st.stats) ==> Stats.DomainSum(r.stats)
    ensures !NeedsBlock(st, d) ==> r == st
    ensures NeedsBlock(st, d) && st.cache.capacity == 0 ==>
      r.cache.records == st.cache.records[d.value := NewBlockedRecord(now)]
    ensures forall k :: k in st.cache.records && (d.None? || k != d.value) ==>
      k in r.cache.records && r.cache.records[k] == st.cache.records[k]
    ensures forall k :: k in st.cache.records && st.cache.records[k].blocked ==>
      k in r.cache.records && r.cache.records[k] == st.cache.records[k]
  {
    if NeedsBlock(st, d) then
      var cleared := Remove(st.cache, d.value);
      assert st.cache.capacity == 0 ==> cleared.records[d.value := NewBlockedRecord(now)] == st.cache.records[d.value := NewBlockedRecord(now)];
      State(Set(cleared, d.value, NewBlockedRecord(now)).0, st.whitelist,
            Stats.AddDomain(st.stats, Stats.Blocked))
    else st
  }

  /** The corrected `parseHostFile`: the lines in order under the corrected
      rule. */
  function ParseHostFileReplacing(st: State, lines: seq<string>, now: int): (r: State)
    ensures r.whitelist == st.whitelist && r.cache.capacity == st.cache.capacity
    ensures Stats.DomainSum(st.stats) ==> Stats.DomainSum(r.stats)
    ensures forall k :: k in st.cache.records && st.cache.records[k].blocked ==>
      k in r.cache.records && r.cache.records[k] == st.cache.records[k]
  {
    if |lines| == 0 then st
    else BlockDomainReplacing(ParseHostFileReplacing(st, lines[..|lines| - 1], now),
                              LineDomain(lines[|lines| - 1]), now)
  }

  /** With the corrected rule and the unbounded cache, every listed domain
      that is not whitelisted ends up holding a blocked record. */
  lemma {:induction false} ReplacingBlocksListed(st: State, lines: seq<string>, now: int, d: string)
    requires st.cache.capacity == 0
    requires d in ListedDomains(lines) - st.whitelist
    ensures var r := ParseHostFileReplacing(st, lines, now);
      d in r.cache.records && r.cache.records[d].blocked
  {
    var init := lines[..|lines| - 1];
    var ld := LineDomain(lines[|lines| - 1]);
    var mid := ParseHostFileReplacing(st, init, now);
    assert ParseHostFileReplacing(st, lines, now) == BlockDomainReplacing(mid, ld, now);
    if d in ListedDomains(init) {
      ReplacingBlocksListed(st, init, now, d);
    } else {
      assert ld == Some(d);
    }
  }

  /** Under the corrected rule and the unbounded cache every record after
      a load is the blocked record of this load or one the cache held
      before. */
  lemma {:induction false} ReplacingRecords(st: State, lines: seq<string>, now: int, k: string)
    requires st.cache.capacity == 0
    requires k in ParseHostFileReplacing(st, lines, now).cache.records
    ensures var r := ParseHostFileReplacing(st, lines, now);
      r.cache.records[k] == NewBlockedRecord(now) || (k in st.cache.records && r.cache.records[k] == st.cache.records[k])
  {
    if |lines| > 0 {
      var init := lines[..|lines| - 1];
      var ld := LineDomain(lines[|lines| - 1]);
      var mid := ParseHostFileReplacing(st, init, now);
      assert ParseHostFileReplacing(st, lines, now) == BlockDomainReplacing(mid, ld, now);
      if k in mid.cache.records {
        ReplacingRecords(st, init, now, k);
      }
    }
  }

  /** One blocklist entry of `update`: `Set` as a blocked record and
      counted, whatever `Set` answers. */
  function SeedEntry(st: State, e: string, now: int): (r: State)
    ensures r.whitelist == st.whitelist && r.cache.capacity == st.cache.capacity
    ensures r.stats.domainBlocked == st.stats.domainBlocked + 1
    ensures Stats.DomainSum(st.stats) ==> Stats.DomainSum(r.stats)
    ensures forall k :: k in st.cache.records ==> k in r.cache.records && r.cache.records[k] == st.cache.records[k]
    ensures st.cache.capacity == 0 ==> r.cache.records.Keys == st.cache.records.Keys + {e}
  {
    State(Set(st.cache, e, NewBlockedRecord(now)).0, st.whitelist,
          Stats.AddDomain(st.stats, Stats.Blocked))
  }

  /** The blocklist entries of `update`: each is `Set` as a blocked record
      and counted, with no whitelist check, so every entry counts,
      duplicates included; with the unbounded cache every entry is stored,
      whitelisted or not, and no record already cached is replaced. */
  function SeedBlocklist(st: State, entries: seq<string>, now: int): (r: State)
    ensures r.whitelist == st.whitelist
    ensures r.cache.capacity == st.cache.capacity
    ensures r.stats.domainBlocked == st.stats.domainBlocked + |entries|
    ensures Stats.DomainSum(st.stats) ==> Stats.DomainSum(r.stats)
    ensures forall k :: k in st.cache.records ==> k in r.cache.records && r.cache.records[k] == st.cache.records[k]
  {
    if |entries| == 0 then st
    else
      SeedEntry(SeedBlocklist(st, entries[..|entries| - 1], now), entries[|entries| - 1], now)
  }

  /** The distinct entries of a list. */
  function Entries(xs: seq<string>): set<string> {
    if |xs| == 0 then {} else Entries(xs[..|xs| - 1]) + {xs[|xs| - 1]}
  }

  /** `Entries` holds exactly the elements of the list. */
  lemma {:induction false} EntriesAreElements(xs: seq<string>, x: string)
    ensures x in Entries(xs) <==> x in xs
  {
    if |xs| > 0 {
      EntriesAreElements(xs[..|xs| - 1], x);
      assert xs == xs[..|xs| - 1] + [xs[|xs| - 1]];
    }
  }

  /** With the unbounded cache every blocklist entry becomes a key,
      whitelisted or not, and no other key appears. */
  lemma {:induction false} SeedBlocklistKeys(st: State, entries: seq<string>, now: int)
    requires st.cache.capacity == 0
    ensures SeedBlocklist(st, entries, now).cache.records.Keys == st.cache.records.Keys + Entries(entries)
  {
    if |entries| > 0 {
      var init := entries[..|entries| - 1];
      var mid := SeedBlocklist(st, init, now);
      assert SeedBlocklist(st, entries, now) == SeedEntry(mid, entries[|entries| - 1], now);
      SeedBlocklistKeys(st, init, now);
    }
  }

  /** `fetchSources`: the sources to download, in order; a source whose
      `<name>.list` file is already among `present` is skipped unless
      `force` is set. */
  function SourcesToFetch(sources: seq<Source>, present: set<string>, force: bool): (r: seq<Source>)
    ensures |r| <= |sources|
    ensures forall s :: s in r ==> s in sources
    ensures forall s :: s in sources ==> (s in r <==> force || s.name + ".list" !in present)
    ensures force ==> r == sources
  {
    if |sources| == 0 then []
    else
      var s := sources[|sources| - 1];
      var init := SourcesToFetch(sources[..|sources| - 1], present, force);
      assert forall x :: x in sources ==> x in sources[..|sources| - 1] || x == s;
      if force || s.name + ".list" !in present then init + [s] else init
  }

  /** The selection keeps order: selecting from two lists one after the
      other is selecting from each and concatenating. */
  lemma {:induction false} SourcesToFetchAppend(a: seq<Source>, b: seq<Source>, present: set<string>, force: bool)
    ensures SourcesToFetch(a + b, present, force) == SourcesToFetch(a, present, force) + SourcesToFetch(b, present, force)
  {
    if |b| == 0 {
      assert a + b == a;
    } else {
      var init := b[..|b| - 1];
      assert (a + b)[..|a + b| - 1] == a + init;
      assert (a + b)[|a + b| - 1] == b[|b| - 1];
      SourcesToFetchAppend(a, init, present, force);
    }
  }

  /** A single source is kept exactly when forced or not yet present. */
  lemma SourcesToFetchOne(s: Source, present: set<string>, force: bool)
    ensures SourcesToFetch([s], present, force) == if force || s.name + ".list" !in present then [s] else []
  {
    assert [s][..0] == [];
  }

  /** `update`: every whitelist entry is marked, then every blocklist entry
      is set and counted; the sources to download come back to the caller
      and no error is ever reported. */
  function Update(cfg: Config, st: State, present: set<string>, force: bool, now: int)
    : (r: (State, seq<Source>))
    ensures r.0.whitelist == st.whitelist + set e | e in cfg.whitelist
    ensures r.0.stats.domainBlocked == st.stats.domainBlocked + |cfg.blocklist|
    ensures r.1 == SourcesToFetch(cfg.sources, present, force)
  {
    var marked := st.(whitelist := st.whitelist + set e | e in cfg.whitelist);
    (SeedBlocklist(marked, cfg.blocklist, now), SourcesToFetch(cfg.sources, present, force))
  }
}
