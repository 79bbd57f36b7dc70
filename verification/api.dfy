/**
  Two routes of the HTTP API (api/api.go): `PUT /application/active`, which
  switches the proxy on or off, and `GET /query/:key`, which reports the
  cached answer and a fresh lookup through the proxy side by side. The
  lookup through the proxy is a parameter; JSON encoding is left out.
*/
module Api {
  import opened Results
  import opened Dns
  import opened Record
  import opened MemCache
  import opened Utils
  import Stats

  const StatusOK: nat := 200
  const StatusBadRequest: nat := 400

  const BadVersion: string := "Illegal value for 'version'"
  const BadState: string := "Illegal value for 'state'"

  /** The JSON body of the active route: the flag, or an error text. */
  datatype ActiveBody = ActiveBody(active: bool) | ErrorBody(error: string)

  datatype ActiveResponse = ActiveResponse(status: nat, body: ActiveBody)

  /** `PUT /application/active?state=…&v=…`: version "1" is the only one
      accepted; "On" activates and "Off" deactivates, and the reply reports
      the flag as it reads afterwards; anything else is a bad request that
      leaves the counters alone. */
  function PutActive(state: string, version: string, s: Stats.Stats): (r: (ActiveResponse, Stats.Stats))
    ensures version != "1" ==> r == (ActiveResponse(StatusBadRequest, ErrorBody(BadVersion)), s)
    ensures version == "1" && state != "On" && state != "Off" ==>
      r == (ActiveResponse(StatusBadRequest, ErrorBody(BadState)), s)
    ensures r.0.status == StatusOK <==> version == "1" && (state == "On" || state == "Off")
    ensures r.0.status == StatusOK ==> r.0.body == ActiveBody(Stats.IsActive(r.1))
    ensures version == "1" && state == "On" && (s.active == 0 || s.active == 1) ==> r.0.body == ActiveBody(true)
    ensures version == "1" && state == "Off" ==> r.0.body == ActiveBody(false)
    ensures r.1.(active := s.active) == s
  {
    if version != "1" then (ActiveResponse(StatusBadRequest, ErrorBody(BadVersion)), s)
    else if state == "On" then
      var s1 := Stats.Activate(s);
      (ActiveResponse(StatusOK, ActiveBody(Stats.IsActive(s1))), s1)
    else if state == "Off" then
      var s1 := Stats.Deactivate(s);
      (ActiveResponse(StatusOK, ActiveBody(Stats.IsActive(s1))), s1)
    else (ActiveResponse(StatusBadRequest, ErrorBody(BadState)), s)
  }

  /** Repeating a request gives the same reply and the same counters as
      sending it once. */
  lemma PutActiveIdempotent(state: string, version: string, s: Stats.Stats)
    ensures var (r1, s1) := PutActive(state, version, s);
      PutActive(state, version, s1) == (r1, s1)
  {
    Stats.SwitchesIdempotent(s);
  }

  /** The outcome of `dns.Client.Exchange` against the proxy itself. */
  datatype Exchange = ExchangeError | ExchangeReply(msg: Msg)

  /** A field of the `/query` reply: a text or a list of answer records. */
  datatype Field = Text(text: string) | Answers(rrs: seq<RR>)

  datatype QueryResponse = QueryResponse(query: Field, cache: Field)

  /** The question sent to the proxy: an A question for the fully qualified
      key, with the message id left at zero. */
  function QueryRequest(key: string): (m: Msg)
    ensures |m.question| == 1 && IsFqdn(m.question[0].name)
    ensures IsIPQuery(m.question[0]) == IPv4Query
    ensures !IsFqdn(key) ==> UnFqdn(m.question[0].name) == key
  {
    UnFqdnInvertsFqdn(key);
    EmptyMsg.(question := [Question(Fqdn(key), TypeA, ClassINET)])
  }

  /** `GET /query/:key` at instant `now`: the cache field is "<key> not in
      cache" whenever the cache lookup fails, missed or expired (an expired
      record is evicted on the way), and the cached answers otherwise; the
      query field is "failed to resolve <key>" when the exchange fails or
      its reply is not a success, and the reply's answers otherwise. */
  function QueryRoute(key: string, c: Cache, now: int, exchange: Msg -> Exchange): (r: (QueryResponse, Cache))
    ensures r.1 == Get(c, key, now).0
    ensures r.0.cache == Text(key + " not in cache") <==> Get(c, key, now).1.Failure?
    ensures key in c.records && !Expired(c.records[key], now) ==> r.0.cache == Answers(c.records[key].msg.answer)
    ensures r.0.query == Text("failed to resolve " + key) <==>
      (exchange(QueryRequest(key)).ExchangeError? || exchange(QueryRequest(key)).msg.rcode != RcodeSuccess)
    ensures r.0.query.Answers? ==> r.0.query == Answers(exchange(QueryRequest(key)).msg.answer)
  {
    var got := Get(c, key, now);
    var query :=
      match exchange(QueryRequest(key))
      case ExchangeError => Text("failed to resolve " + key)
      case ExchangeReply(m) =>
        if m.rcode != RcodeSuccess then Text("failed to resolve " + key) else Answers(m.answer);
    var cached :=
      match got.1
      case Failure(_) => Text(key + " not in cache")
      case Success(rec) => Answers(rec.msg.answer);
    (QueryResponse(query, cached), got.0)
  }
}
