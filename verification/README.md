# dnsproxy, modelled in Dafny

A model of the decision logic of dnsproxy. The proxy is a DNS forwarder with
a block list, a hosts file, a record cache, counters, a small HTTP API and a
browser dashboard. Each layer is a module of pure functions over immutable
datatypes:

- `Stats` (stats/stats.go) holds the domain and query counters, the on/off
  flag as a compare-and-swap pair, and the rolling one-hour per-second query
  buffer of `calcQPS`.
- `Record` (cache/record/record.go) and `MemCache`
  (cache/memcache/memcache.go) hold record expiry and the capacity-bounded
  cache. The cache checks "full" before "exists" and never overwrites a key.
  `Get` evicts an expired record.
- `Blocker` (blocker/blocker.go) holds the line rule of block-list files,
  the whitelist and blocklist seeding of `update`, and the skip rule for
  downloading sources.
- `Hosts` (hosts/hosts.go) holds hosts-file parsing, where later lines win,
  plus the exact and wildcard lookups and the address-family filter.
- `Utils` (utils/utils.go) holds the query-family classification, the
  trailing-dot helpers and the domain check.
- `Handler` (resolver/handler.go) holds one DNS request:
  - the cache stage, where a blocked hit writes a reply and falls through;
  - the hosts stage;
  - upstream resolution with one TCP retry for a truncated UDP reply;
  - the server-failure reply;
  - the smallest-TTL rule;
  - the cache insert.
- `Api` (api/api.go) holds the `PUT /application/active` dispatch and the
  `GET /query/:key` report.
- `Dashboard` (web/js/index.js) holds the page state and its handlers:
  - the QPS series rebuilt from the buffer;
  - the guarded blocked percentage;
  - the `loading` flag;
  - the auto-update timer, tracked as a set of live timer ids;
  - the lookup box with its sentinel text;
  - the on/off switch.
- `EndToEnd` holds properties across layers:
  - the switch round trip from page to API to counters and back;
  - the stats reply charted by the page;
  - a block-listed domain answered by the handler.
- `Text` holds the Go `strings` functions the parsers use: `TrimSpace`,
  `Split`, `Fields`, ASCII `ToLower` and a one-character `Replace`. `Dns`
  holds the slice of `net.IP` and miekg/dns messages the proxy touches.
  `Results` holds `Option` and `Result`.

Things outside the model are passed in as parameters:

- the clock, as an integer instant;
- `net.ParseIP` and `publicsuffix.EffectiveTLDPlusOne`;
- the order in which Go iterates the hosts map;
- the upstream lookup and the API's exchange with the proxy, as their
  outcomes;
- the id a new browser interval timer gets;
- file contents, as sequences of lines.

The handler's blocked cache hit has no `return` in the source, and the model
keeps that behaviour: `Handler.BlockedHitFallsThrough` proves that a live
blocked hit gets the blocked reply and, with the hosts file off, a second
reply from upstream. A block-listed domain gets the blocked reply only when
loading stored a blocked record for it. `EndToEnd.ListedDomainBlocked` covers
a domain the cache did not hold before the load. The DNS server starts before
the first load and the proxy is switched on only after it
(dnsproxy/dnsproxy.go:28-39), so a listed domain resolved upstream in between
keeps its unblocked record; see "## Findings".

The dashboard code (web/js/index.js) behaves as follows, and the model
keeps each of these:

- `generateStats` clears `loading` whether or not the reply carries a `qps`
  buffer.
- With zero queries the blocked percentage keeps its previous value. On a
  fresh page that value is 0.
- Every stats reply is applied as it arrives. Nothing compares its timestamp
  with the one already shown.
- `toggle_autoupdate` always flips the flag. Turning it on arms a new timer
  without looking for a running one; the timer invariant holds because the
  flag alternates.

## Model

| member | source | states |
|---|---|---|
| Text.TrimSpace | blocker/blocker.go:127 | the result has no leading or trailing white space, and it is empty exactly when the text is all white space |
| Text.TrimSpaceSlice | blocker/blocker.go:127 | the result is a slice of the text with only white space before and after it |
| Text.Split | hosts/hosts.go:135 | there is at least one piece; no piece holds the separator; the first piece is the prefix up to the first separator; text without the separator is a single piece |
| Text.JoinSplit | hosts/hosts.go:135 | joining the pieces of a split with the separator gives back the text |
| Text.SplitJoin | resolver/handler.go:31-33 | splitting undoes joining when no piece holds the separator |
| Text.Fields | blocker/blocker.go:130 | every field is non-empty and free of white space; there are no fields exactly when the text is all white space |
| Text.FieldsJoin | blocker/blocker.go:130 | non-empty space-free words joined by single spaces come back as exactly those words, in order |
| Text.FieldsSkipSpace | blocker/blocker.go:130 | white space before the text does not change its fields |
| Text.FieldsAfterField | blocker/blocker.go:130 | a field followed by any non-empty run of white space is the first field, and the rest's fields follow |
| Text.FieldsOfSeparated | blocker/blocker.go:130 | fields separated by white-space runs of any length and mix of spaces, tabs and line ends, with optional white space before and after, come back as exactly those fields, in order |
| Text.ToLower | hosts/hosts.go:155 | same length, no upper-case ASCII letter left, each character lower-cased in place |
| Text.ReplaceAll | hosts/hosts.go:129 | same length; every tab becomes a space and every other character is kept |
| Dns.To4 | hosts/hosts.go:49 | a 4-byte address is kept; a 16-byte one yields its last 4 bytes only under the IPv4-in-IPv6 prefix; other lengths fail |
| Dns.To16 | hosts/hosts.go:51 | defined exactly for 4- and 16-byte addresses, always 16 bytes, and it keeps the IPv4 reading; a 16-byte address is kept as it is and a 4-byte one gets the IPv4-in-IPv6 prefix |
| Dns.SetReply | resolver/handler.go:100-101 | a success response with the request's id and first question and no answers |
| Dns.SetRcode | resolver/handler.go:104 | a response with the request's id, the given code and no answers |
| Record.ExpiredStaysExpired | cache/record/record.go:19-29 | expiry is monotone in time, and a no-expire record never expires |
| Record.NewRecord | cache/record/record.go:31-40 | stamped at `now`; an expiring record is expired at `t` exactly when `t` is past `now + ttl`, so it is live when created with a non-negative ttl |
| Record.NewResolvedRecord | cache/record/record.go:42-44 | not blocked, and expired exactly after `now + ttl` |
| Record.NewCustomRecord | cache/record/record.go:42-48 | a hosts-file record is indistinguishable from an upstream one with the same message and TTL |
| Record.NewBlockedRecord | cache/record/record.go:50-72 | blocked, carrying the shared "domain.blocked" 0.0.0.0 message, and never expired |
| MemCache.FullMeansAtCapacity | cache/memcache/memcache.go:83-88 | capacity 0 is never full and accepts any new key; otherwise full exactly at or above capacity; a negative capacity is always full |
| MemCache.Remove | cache/memcache/memcache.go:69-74 | deletes that key only; the other records are kept; a missing key changes nothing |
| MemCache.ExistsMatchesGet | cache/memcache/memcache.go:61-67 | a key exists exactly when `Get` does not report it missing; after a `Set` it exists unless the cache was full and lacked it |
| MemCache.LengthCountsKeys | cache/memcache/memcache.go:76-81 | the length grows by one exactly when `Set` stores a new key, and drops by one exactly when `Remove` deletes an existing one |
| MemCache.Set | cache/memcache/memcache.go:29-42 | full means `ErrorCacheFull` and no change, checked before existence; an existing key keeps its old record; otherwise exactly that key is added; a positive capacity is never exceeded |
| MemCache.Get | cache/memcache/memcache.go:44-59 | missing key: `ErrorCacheKeyMissed` and no change; expired: the key is removed and `ErrorCacheKeyExpired`; live: the record, with no change |
| MemCache.GetEvictsOnce | cache/memcache/memcache.go:53-56 | after an expiry report the next `Get` misses; a successful `Get` repeats |
| Stats.Reset | stats/stats.go:64-74 | the domain total, the normal, blocked and custom counters, the query counters and the average are zero, the buffer is empty and the domain-sum invariant holds; the flag and tick state are untouched |
| Stats.AddDomain | stats/stats.go:76-99 | the kind's counter and the total each rise by one, nothing else changes, and the domain sum is kept |
| Stats.RemoveDomain | stats/stats.go:81-104 | the kind's counter and the total each drop by one, and the domain sum is kept |
| Stats.RemoveUndoesAdd | stats/stats.go:76-104 | removing a domain undoes adding one of the same kind, both ways round |
| Stats.AddQuery | stats/stats.go:106-108 | only the query counter moves, by exactly one |
| Stats.AddQueryBlocked | stats/stats.go:110-112 | only the blocked-query counter moves, by exactly one |
| Stats.Activate | stats/stats.go:114-116 | moves the flag from 0 to 1 only; from 0 or 1 the proxy reads as active |
| Stats.Deactivate | stats/stats.go:118-120 | moves the flag from 1 to 0 only; afterwards the proxy never reads as active |
| Stats.SwitchesIdempotent | stats/stats.go:114-124 | both switches are idempotent, keep the flag in {0, 1}, and undo each other |
| Stats.GoDiv | stats/stats.go:144 | Go's truncating division: the remainder is below the divisor in size and has the dividend's sign |
| Stats.CalcQps | stats/stats.go:126-150 | the index panic happens exactly on the same second with an empty buffer; the same second adds delta to the last slot; a later second appends delta after dropping the oldest slot at 3600; a clock that went backwards keeps the buffer; at most 3600 slots; the average and the tick fields follow the rules |
| Stats.CalcQpsKeepsSum | stats/stats.go:132-149 | while the clock does not go backwards and the buffer is not trimmed, the buffer total stays equal to `lastCount` |
| Stats.Qps | stats/stats.go:180-187 | an element-wise equal copy of the buffer |
| Utils.IsIPQuery | utils/utils.go:18-31 | 4 exactly for INET A, 6 exactly for INET AAAA, 0 for everything else including every non-INET class |
| Utils.Fqdn | api/api.go:60 | the result is fully qualified; a qualified name is kept as it is, any other gets exactly one dot appended |
| Utils.UnFqdn | utils/utils.go:34-39 | drops exactly the final dot of a fully qualified name; any other name is unchanged |
| Utils.UnFqdnInvertsFqdn | utils/utils.go:34-39 | `UnFqdn` undoes `Fqdn` on unqualified names, and the other way on names with exactly one final dot |
| Utils.IsDomain | utils/utils.go:41-47 | never true for text that parses as an address; for any other text, true exactly when the pattern matches |
| Hosts.Normalize | hosts/hosts.go:128-129 | the trimmed line, character for character, except that every tab becomes a space, so no tab is left |
| Hosts.Names | hosts/hosts.go:149-156 | every name is non-empty and lower case |
| Hosts.NamesExactly | hosts/hosts.go:149-156 | a name is produced exactly when some non-blank piece, trimmed and lower-cased, gives it |
| Hosts.ParseLine | hosts/hosts.go:127-156 | a line is skipped exactly when it is a comment or empty, has fewer than two pieces, or its first piece is not an address; otherwise that address maps lower-case non-empty names |
| Hosts.ParseLineNames | hosts/hosts.go:135-156 | a parsed line maps exactly the non-blank pieces after its address, trimmed and lower-cased |
| Hosts.ApplyLine | hosts/hosts.go:149-156 | the line's names now map to its address; every other name keeps its address |
| Hosts.Refresh | hosts/hosts.go:111-159 | a file that cannot be opened leaves the map as it was; otherwise the map is rebuilt from empty and is well formed |
| Hosts.LoadWellFormed | hosts/hosts.go:122-157 | loading lines keeps every name lower case and non-empty and every address parsable |
| Hosts.LastMentionWins | hosts/hosts.go:124-157 | a name maps to the address of the last line that mentions it |
| Hosts.WildcardScan | hosts/hosts.go:96-106 | a hit is a `*.` host of the map with the same registrable domain, and its address; a miss means no such host in the order |
| Hosts.FileGet | hosts/hosts.go:82-109 | the query is lower-cased; an exact hit answers exactly `[ip]`; without one, a registrable domain answers with a wildcard hit (Go's map order is unspecified) and no registrable domain answers nothing; any answer is one address of the map |
| Hosts.Pick | hosts/hosts.go:46-58 | a parsed address gives `To4` of it for family 4 and `To16` of it for family 6; nothing for other families or text that does not parse; a result has 4 bytes for family 4 and 16 for family 6 |
| Hosts.Convert | hosts/hosts.go:46-58 | every address that parses for the family is kept in its 4- or 16-byte form and nothing else is; none for any other family |
| Hosts.ConvertAppend | hosts/hosts.go:46-58 | conversion keeps the order: converting a concatenation converts each part in turn |
| Hosts.Get | hosts/hosts.go:34-61 | the file answer converted for the family; nothing without a file answer; ok exactly when some answered address parses for that family, so never for a family other than 4 or 6 |
| Hosts.ExactHitAnswers | hosts/hosts.go:40-89 | an exact hit on an IPv4 address answers an A question with that address in 4-byte form |
| Blocker.LineDomain | blocker/blocker.go:125-136 | nothing exactly when the text before `#` is blank; otherwise the second field if there are two or more, else the only one |
| Blocker.BlockDomain | blocker/blocker.go:137-141 | a domain neither cached nor whitelisted is stored as a blocked record unless the cache is full, and counted once either way; anything else changes nothing; cached records and the domain sum are kept |
| Blocker.BlockUnbounded | blocker/blocker.go:137-141 | with the unbounded cache, a line adds exactly its non-whitelisted domain, and the cache grows by one exactly when the domain passes |
| Blocker.ParseHostFile | blocker/blocker.go:117-150 | a list file keeps every record already cached, the whitelist, the capacity and the domain sum |
| Blocker.ParseHostFileKeys | blocker/blocker.go:124-143 | with the unbounded cache, the keys after a list are the keys before it plus its listed domains that are not whitelisted |
| Blocker.ParseHostFileCounts | blocker/blocker.go:137-141 | with the unbounded cache, the blocked-domain counter grows by exactly the number of keys a list adds |
| Blocker.ParseHostFileAddsListed | blocker/blocker.go:124-143 | with the unbounded cache, a list adds exactly its listed non-whitelisted domains, and the blocked counter grows by the number of keys added |
| Blocker.ParseHostFileKeepsBlocked | blocker/blocker.go:138-139 | every record a list adds is blocked and never expires |
| Blocker.ParseHostFileAddsBlocked | blocker/blocker.go:138-141 | every key a list adds holds a blocked record that never expires, whatever the cache held before |
| Blocker.ResolvedRecordSurvives | blocker/blocker.go:138-141 | a record already cached for a listed, non-whitelisted domain is kept unchanged and unblocked by the load |
| Blocker.BlockDomainReplacing | blocker/blocker.go:138-141 | the corrected line rule: a non-whitelisted domain without a blocked record gets one, replacing any other record, and is counted; blocked records and other domains stay |
| Blocker.ParseHostFileReplacing | blocker/blocker.go:117-150 | the corrected loader keeps the whitelist, the capacity, the domain sum and every blocked record |
| Blocker.ReplacingBlocksListed | blocker/blocker.go:124-143 | with the corrected loader and the unbounded cache, every listed domain that is not whitelisted holds a blocked record |
| Blocker.ReplacingRecords | blocker/blocker.go:124-143 | with the corrected loader and the unbounded cache, every record is this load's blocked record or one held before |
| Blocker.SeedBlocklist | blocker/blocker.go:29-32 | every blocklist entry is counted, duplicates and whitelisted ones included; no cached record is replaced |
| Blocker.SeedBlocklistKeys | blocker/blocker.go:29-32 | with the unbounded cache every entry becomes a key, whitelisted or not, and no other key appears |
| Blocker.EntriesAreElements | blocker/blocker.go:29-32 | the entry set used above holds exactly the elements of the list |
| Blocker.SourcesToFetch | blocker/blocker.go:64-90 | a source is fetched exactly when forced or its `<name>.list` file is absent; forcing fetches every source |
| Blocker.SourcesToFetchAppend | blocker/blocker.go:67-73 | the selection keeps the configured order: selecting from two lists in turn is selecting from each and concatenating |
| Blocker.SourcesToFetchOne | blocker/blocker.go:67-71 | a single source is kept exactly when forced or its list file is absent |
| Blocker.Update | blocker/blocker.go:24-39 | the whitelist gains every configured entry, the blocked counter grows by the blocklist length, and the sources follow the skip rule |
| Handler.QuestionString | resolver/handler.go:31-33 | the text is exactly as long as name, class and type plus two separators |
| Handler.QuestionStringSplits | resolver/handler.go:31-33 | splitting the text on spaces gives back name, class and type when none holds a space |
| Handler.MinTtl | resolver/handler.go:206-216 | the chosen TTL is at most the configured one and at most every positive answer TTL; it is the configured TTL or some positive answer TTL, so zero TTLs never lower it |
| Handler.ChooseTtl | resolver/handler.go:206-216 | the loop of `do` computes that choice |
| Handler.AddressRR | resolver/handler.go:144-170 | an A record for family 4 and an AAAA record for family 6, named as the question, in INET with the given TTL |
| Handler.BlockedReply | resolver/handler.go:100-126 | with NXDomainOnBlock, a name error without answers; otherwise one A 0.0.0.0 or AAAA :: record by family, with the configured TTL |
| Handler.HostsReply | resolver/handler.go:139-171 | one answer per hosts address, in order, with the configured TTL |
| Handler.HandleFailed | resolver/handler.go:241-245 | a server failure with the request's id and no answers |
| Handler.CacheStage | resolver/handler.go:82-134 | misses and non-address questions go on; an expired record is evicted; a live unblocked record is replied under the request's id and ends the request; a live blocked record is answered, counted and goes on |
| Handler.HostsStage | resolver/handler.go:137-183 | the request ends exactly when hosts are on, the question is A or AAAA and addresses are found; it then replies, caches a custom record and counts a custom domain |
| Handler.Deliver | resolver/handler.go:206-227 | the upstream reply is written; only A or AAAA questions with answers are cached, for the smallest TTL, and counted as normal domains |
| Handler.Resolve | resolver/handler.go:186-227 | exactly one reply is written; a truncated UDP reply leads to exactly one TCP retry; an upstream error gives a server failure and nothing else |
| Handler.ResolveDelivers | resolver/handler.go:186-227 | without a retry the first reply is delivered; after a truncated UDP reply the TCP reply is delivered, or a server failure if the TCP lookup fails |
| Handler.Do | resolver/handler.go:72-228 | each request is counted once, gets one or two replies, and is looked up upstream at most twice |
| Handler.Serve | resolver/handler.go:82-227 | an active request keeps its query count, gets one or two replies and at most two upstream lookups |
| Handler.InactiveGoesUpstream | resolver/handler.go:82-187 | while switched off, the cache and the hosts file are bypassed and one reply comes from upstream resolution |
| Handler.UpstreamErrorFails | resolver/handler.go:187-194 | while switched off, an upstream error gives one server-failure reply and changes nothing but the query count |
| Handler.UpstreamReplyDelivered | resolver/handler.go:186-227 | while switched off, a reply needing no retry is written as it came; with A or AAAA and answers it is cached for the smallest TTL and counted as normal, otherwise the cache and counters stay |
| Handler.TruncatedUdpRetried | resolver/handler.go:196-204 | while switched off, a truncated UDP reply is replaced by the TCP reply, after lookups over UDP then TCP |
| Handler.UnblockedHitReplies | resolver/handler.go:84-96 | a live unblocked hit replies once with the cached message under the request's id, and nothing else happens |
| Handler.BlockedHitFallsThrough | resolver/handler.go:97-133 | a live blocked hit writes the blocked reply and counts it; with hosts off the request still goes upstream, giving two replies |
| Handler.HostsHitAnswers | resolver/handler.go:137-179 | a hosts hit replies with the found addresses without any upstream lookup and counts a custom domain |
| Handler.NonAddressQueriesSkipCache | resolver/handler.go:79-227 | questions other than INET A or AAAA leave the cache exactly as it was |
| Api.PutActive | api/api.go:90-107 | any version but "1" is a 400 with no change; "On" and "Off" switch and report the flag they leave, true after "On" from 0 or 1 and false after "Off"; any other state is a 400 with no change |
| Api.PutActiveIdempotent | api/api.go:90-107 | sending the same request twice gives the same reply and counters as once |
| Api.QueryRequest | api/api.go:59-60 | an A question for the fully qualified key; for a key without a trailing dot the handler's cache key is the key again |
| Api.QueryRoute | api/api.go:53-80 | the cache field is "<key> not in cache" exactly when the cache lookup fails, and the cached answers otherwise; the query field is "failed to resolve <key>" exactly on an exchange error or a non-success code |
| Dashboard.Points | web/js/index.js:78-89 | no more points than slots, and every point is a positive slot `i` charted at second `timeStart + i` |
| Dashboard.PointsIncreasing | web/js/index.js:81-89 | the series is in strictly increasing time order |
| Dashboard.PointsComplete | web/js/index.js:81-89 | every positive slot is charted at its second |
| Dashboard.PointsEmpty | web/js/index.js:74-91 | only the headers are charted exactly when no slot is positive |
| Dashboard.ChartColumns | web/js/index.js:72-92 | the x and y columns have equal length and pair up into exactly the reference series |
| Dashboard.ChartOf | web/js/index.js:74-92 | equal-length columns, no longer than the buffer, pairing into the reference series |
| Dashboard.ChartExample | web/js/index.js:78-89 | [0, 0, 3, 5, 0, 2] at second 1000 charts (996, 3), (997, 5), (999, 2) |
| Dashboard.GenerateStats | web/js/index.js:63-71 | loading ends whether or not a buffer came; a buffer is charted |
| Dashboard.FetchStats | web/js/index.js:45-62 | the counters are copied; the percentage is recomputed only when queries were counted, so there is no division by zero; loading ends |
| Dashboard.ToggleAutoUpdate | web/js/index.js:152-168 | the interval ends positive, defaulting to 10; the flag flips; turning on arms one timer and turning off clears the current one unless its id is 0 |
| Dashboard.ToggleKeepsTimerInvariant | web/js/index.js:159-167 | with non-zero ids, live timers are the one auto-update timer while on and none while off |
| Dashboard.TwoTogglesClearTimers | web/js/index.js:152-168 | two toggles from off leave no live timer |
| Dashboard.ZeroIdLeaks | web/js/index.js:164-166 | a timer with id 0 is never cleared |
| Dashboard.InitialTimerInvariant | web/js/index.js:16-21 | the initial page is loading and satisfies the timer invariant |
| Dashboard.StartQuery | web/js/index.js:32-35 | both answers are cleared before the request; nothing else changes |
| Dashboard.OnQueryAnswer | web/js/index.js:36-43 | the cache answer is shown as received; the query answer is shown when truthy, else the sentinel, so it is always truthy |
| Dashboard.ActiveToken | web/js/index.js:137-139 | "On" exactly for true, "Off" otherwise |
| Dashboard.OnActiveResponse | web/js/index.js:131-146 | the local flag is taken from the reply alone |
| EndToEnd.SwitchRoundTrip | web/js/index.js:137-146 | from flag 0 or 1, switching to `b` is accepted, the counters read `b`, and the page shows `b` |
| EndToEnd.FetchedStatsCharted | web/js/index.js:45-92 | a stats reply from the service ends loading and charts each positive slot at its second, in increasing order |
| EndToEnd.DumpShown | stats/stats.go:201-214 | the page shows the counters and the buffer `Dump` reports, and the blocked share once a query was counted |
| EndToEnd.ListedDomainBlocked | resolver/handler.go:84-133 | a block-listed domain that the cache did not hold before the load gets the blocked reply and a counted blocked query, plus an upstream reply when hosts are off |
| EndToEnd.ListedDomainBlockedReplacing | resolver/handler.go:84-133 | with the corrected loader, every listed non-whitelisted domain gets the blocked reply, whatever the cache held before the load |

## Left out

- Concurrency is left out because every operation is modelled as one sequential step. This covers the stats ticker goroutine, the hosts refresh ticker, the download `WaitGroup`, the mutexes and the atomics.
- The clock is left out because every instant is an integer parameter: Unix seconds for the counters and the dashboard, nanoseconds for records.
- Network and file I/O are left out because their results are parameters. This covers the DNS servers (resolver/server.go), `Resolver.Lookup` with its timeouts, name servers and DNS over HTTPS, file downloads and directory walks, and the HTTP server.
- `net.ParseIP`, `publicsuffix.EffectiveTLDPlusOne` and the domain regular expression are left out because they belong to outside libraries; they are parameters.
- miekg/dns message internals are left out. Only the id, the response flag, the code, the truncation flag, the questions and the answer records are kept.
- Utils.IsFqdn: escaped trailing dots (`\.`) are not recognised, because the miekg/dns escape rule is outside the model.
- Text.ToLower: only ASCII letters are lower-cased, because Go's Unicode case tables are outside the model.
- Stats.AddDomain: the counters are unbounded integers, so Go's int32 wrap-around is not modelled. The same holds for Stats.AddQuery, Stats.AddQueryBlocked and Stats.CalcQps.
- Stats.CalcQps: the `int32(elapsed)` conversion is taken without truncation.
- Blocker.ParseHostFileAddsListed: stated only for the unbounded cache (`NewCache`, capacity 0), the one the program uses. With a bounded cache, a full cache still counts a domain it does not store, as `Blocker.BlockDomain` states.
- Blocker.SeedBlocklistKeys: key sets are stated only for the unbounded cache, for the same reason.
- Handler.Do: requires the request to carry a question, because `do` indexes `Question[0]`. An empty question section makes Go panic, and the model does not represent that.
- The DNS reply writer's errors and its `recover` are left out; every reply counts as written. Logging (logger/logger.go) is left out as well.
- The null routes are kept as 4 and 16 zero bytes. Go's `ParseIP("0.0.0.0")` gives the 16-byte form, which packs into the same A record.
- Api.QueryRoute: a reply without an error is always taken to be present. A missing reply without an error would make Go panic. The random message id of the exchange is also left out.
- Api.QueryRoute: the cache field is read from the cache as given. The proxy's own cache insert while answering the exchange is not reflected in it, because the exchange is a parameter.
- Blocker.ParseHostFileKeepsBlocked: still assumes a cache of blocked records only; `Blocker.ParseHostFileAddsBlocked` states the part that holds for any cache.
- The other routes (`/cache`, `/cache/get/:key`, `/cache/length`, `/stats`, `GET /application/active`), gin routing and JSON encoding are left out because they only copy values.
- Dashboard.FetchStats: the blocked percentage uses exact real arithmetic, not IEEE doubles. `timeStarted` as a `Date` and `timeElapsed` are left out because they are floating-point display values.
- The 1-second `pollActive` timer and the page's jQuery requests are left out; the replies arrive as handler arguments. Chart rendering and `$('#chart').show()` are left out too.
- config/config.go, dnsproxy/dnsproxy.go, main.go and cache/cache.go are left out because they hold wiring, defaults and the interface. The cache errors reappear as `MemCache.CacheError`.

## Findings

| source | as written | input that shows it | evidently intended | confidence | as-written member | corrected member |
|---|---|---|---|---|---|---|
| blocker/blocker.go:138-141 | a listed domain is skipped when the cache holds any record for it, blocked or not | the server answers while switched off before the first load (dnsproxy/dnsproxy.go:28-39); a query for a listed domain caches its upstream reply, and the load then leaves that unblocked record in place | every listed domain that is not whitelisted is blocked after a load | medium, not executed | Blocker.ResolvedRecordSurvives | Blocker.ReplacingBlocksListed |
