/**
  A cache record (cache/record/record.go): a DNS message with a blocked flag
  and an expiry. Instants and durations are integers in one common unit
  (nanoseconds, as Go's `time.Duration`); the clock is a parameter.
*/
module Record {
  import opened Dns

  /** One `time.Second`. */
  const Second: nat := 1_000_000_000

  datatype Record = Record(
    msg: Msg,
    blocked: bool,
    noExpire: bool,
    updateAt: int,
    expireAt: int)

  /** `Record.Expired` at instant `now`. */
  predicate Expired(r: Record, now: int) {
    if r.noExpire then false
    else r.expireAt < now
  }

  /** Expiry is monotone in time: a record expired at `now` is expired at
      every later instant, and a `NoExpire` record is never expired. */
  lemma ExpiredStaysExpired(r: Record, now: int, later: int)
    requires now <= later
    ensures Expired(r, now) ==> Expired(r, later)
    ensures r.noExpire ==> !Expired(r, later)
  {
  }

  /** `NewRecord`, stamped with the instant `now`: an expiring record is
      expired at `t` exactly when `t` is past `now + ttl`, so with a
      non-negative `ttl` it is live at its creation instant. */
  function NewRecord(msg: Msg, blocked: bool, noExpire: bool, ttl: int, now: int): (r: Record)
    ensures r.msg == msg && r.blocked == blocked && r.noExpire == noExpire
    ensures r.updateAt == now
    ensures !noExpire ==> forall t :: Expired(r, t) <==> t > now + ttl
    ensures ttl >= 0 ==> !Expired(r, now)
  {
    Record(msg, blocked, noExpire, now, now + ttl)
  }

  /** A record for an upstream answer: not blocked, expiring `ttl` after
      `now`. */
  function NewResolvedRecord(msg: Msg, ttl: int, now: int): (r: Record)
    ensures r.msg == msg && !r.blocked && !r.noExpire
    ensures forall t :: Expired(r, t) <==> t > now + ttl
  {
    NewRecord(msg, false, false, ttl, now)
  }

  /** A record for a hosts-file answer: built exactly like a record for an
      upstream answer, so the cache cannot tell the two apart. */
  function NewCustomRecord(msg: Msg, ttl: int, now: int): (r: Record)
    ensures r == NewResolvedRecord(msg, ttl, now)
  {
    NewRecord(msg, false, false, ttl, now)
  }

  /** The message every blocked record shares: one A record for
      "domain.blocked" pointing at 0.0.0.0 with a TTL of 600. */
  const BlockedMsg: Msg :=
    EmptyMsg.(answer := [RR("domain.blocked", TypeA, ClassINET, 600, AData(NullRoute))])

  /** A blocked record is blocked, carries the shared blocked message and is
      never expired. */
  function NewBlockedRecord(now: int): (r: Record)
    ensures r.blocked && r.msg == BlockedMsg
    ensures forall t :: !Expired(r, t)
  {
    NewRecord(BlockedMsg, true, true, 0, now)
  }
}
