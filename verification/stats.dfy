/**
  The service counters (stats/stats.go): domain and query counters, the
  on/off flag and the rolling per-second query buffer. Every operation is
  a pure step on a `Stats` value; the clock reading is a parameter and the
  counters are unbounded integers.
*/
module Stats {
  import opened Results

  /** `maxQPSCount`: the rolling buffer holds at most one hour of seconds. */
  const MaxQpsCount: nat := 3600

  datatype Stats = Stats(
    active: int,
    domainCount: int,
    domainNormal: int,
    domainBlocked: int,
    domainCustom: int,
    queryCount: int,
    queryBlocked: int,
    qpsAverage: int,
    qps: seq<int>,
    timeStarted: int,
    lastTime: int,
    lastCount: int)

  /** The zero value of the Go struct, before `init` resets it. */
  const Zero := Stats(0, 0, 0, 0, 0, 0, 0, 0, [], 0, 0, 0)

  /** The three kinds of domain the proxy counts. */
  datatype DomainKind = Normal | Blocked | Custom

  function KindCount(s: Stats, kind: DomainKind): int {
    match kind
    case Normal => s.domainNormal
    case Blocked => s.domainBlocked
    case Custom => s.domainCustom
  }

  /** The domain total is the sum of the three kinds. */
  predicate DomainSum(s: Stats) {
    s.domainCount == s.domainNormal + s.domainBlocked + s.domainCustom
  }

  /** `reset` at instant `now` (seconds): zeroes the domain and query
      counters and the average, empties the buffer and restarts the clock;
      the flag, `lastTime` and `lastCount` are not touched. */
  function Reset(s: Stats, now: int): (r: Stats)
    ensures DomainSum(r) && r.domainCount == 0
    ensures r.domainNormal == 0 && r.domainBlocked == 0 && r.domainCustom == 0
    ensures r.queryCount == 0 && r.queryBlocked == 0 && r.qpsAverage == 0
    ensures r.qps == [] && r.timeStarted == now
    ensures r.active == s.active && r.lastTime == s.lastTime && r.lastCount == s.lastCount
  {
    s.(domainCount := 0, domainNormal := 0, domainBlocked := 0, domainCustom := 0,
       queryCount := 0, queryBlocked := 0, qpsAverage := 0, qps := [], timeStarted := now)
  }

  /** `addNormalDomain`, `addBlockedDomain`, `addCustomDomain`: the kind's
      counter and the total each go up by one, nothing else changes. */
  function AddDomain(s: Stats, kind: DomainKind): (r: Stats)
    ensures KindCount(r, kind) == KindCount(s, kind) + 1
    ensures r.domainCount == s.domainCount + 1
    ensures forall k :: k != kind ==> KindCount(r, k) == KindCount(s, k)
    ensures DomainSum(s) ==> DomainSum(r)
    ensures r.(domainCount := s.domainCount, domainNormal := s.domainNormal,
               domainBlocked := s.domainBlocked, domainCustom := s.domainCustom) == s
  {
    match kind
    case Normal => s.(domainNormal := s.domainNormal + 1, domainCount := s.domainCount + 1)
    case Blocked => s.(domainBlocked := s.domainBlocked + 1, domainCount := s.domainCount + 1)
    case Custom => s.(domainCustom := s.domainCustom + 1, domainCount := s.domainCount + 1)
  }

  /** `removeNormalDomain`, `removeBlockedDomain`, `removeCustomDomain`: the
      kind's counter and the total each go down by one. */
  function RemoveDomain(s: Stats, kind: DomainKind): (r: Stats)
    ensures KindCount(r, kind) == KindCount(s, kind) - 1
    ensures r.domainCount == s.domainCount - 1
    ensures forall k :: k != kind ==> KindCount(r, k) == KindCount(s, k)
    ensures DomainSum(s) ==> DomainSum(r)
  {
    match kind
    case Normal => s.(domainNormal := s.domainNormal - 1, domainCount := s.domainCount - 1)
    case Blocked => s.(domainBlocked := s.domainBlocked - 1, domainCount := s.domainCount - 1)
    case Custom => s.(domainCustom := s.domainCustom - 1, domainCount := s.domainCount - 1)
  }

  /** Removing a domain undoes adding one of the same kind, and the other
      way round. */
  lemma RemoveUndoesAdd(s: Stats, kind: DomainKind)
    ensures RemoveDomain(AddDomain(s, kind), kind) == s
    ensures AddDomain(RemoveDomain(s, kind), kind) == s
  {
  }

  /** `addQuery`: only the query counter moves, by exactly one. */
  function AddQuery(s: Stats): (r: Stats)
    ensures r.queryCount == s.queryCount + 1
    ensures r.(queryCount := s.queryCount) == s
  {
    s.(queryCount := s.queryCount + 1)
  }

  /** `addQueryBlocked`: only the blocked-query counter moves, by one. */
  function AddQueryBlocked(s: Stats): (r: Stats)
    ensures r.queryBlocked == s.queryBlocked + 1
    ensures r.(queryBlocked := s.queryBlocked) == s
  {
    s.(queryBlocked := s.queryBlocked + 1)
  }

  /** `Active`: the flag reads as on exactly when it holds 1. */
  predicate IsActive(s: Stats) {
    s.active == 1
  }

  /** `activate`: compare-and-swap 0 to 1; any other value stays. */
  function Activate(s: Stats): (r: Stats)
    ensures r.active == s.active || (s.active == 0 && r.active == 1)
    ensures s.active == 0 || s.active == 1 ==> IsActive(r)
    ensures r.(active := s.active) == s
  {
    if s.active == 0 then s.(active := 1) else s
  }

  /** `deactivate`: compare-and-swap 1 to 0; any other value stays. */
  function Deactivate(s: Stats): (r: Stats)
    ensures r.active == s.active || (s.active == 1 && r.active == 0)
    ensures !IsActive(r)
    ensures r.(active := s.active) == s
  {
    if s.active == 1 then s.(active := 0) else s
  }

  /** Both switches are idempotent, they keep the flag within {0, 1}, and
      they undo each other from the state they leave. */
  lemma SwitchesIdempotent(s: Stats)
    ensures Activate(Activate(s)) == Activate(s)
    ensures Deactivate(Deactivate(s)) == Deactivate(s)
    ensures s.active in {0, 1} ==> Activate(s).active in {0, 1} && Deactivate(s).active in {0, 1}
    ensures IsActive(s) ==> Activate(Deactivate(s)) == s
    ensures s.active == 0 ==> Deactivate(Activate(s)) == s
  {
  }

  function Abs(x: int): nat {
    if x < 0 then -x else x
  }

  /** Go's `/` on integers: the quotient truncated toward zero, so the
      remainder is smaller than the divisor and has the dividend's sign. */
  function GoDiv(a: int, b: int): (q: int)
    requires b != 0
    ensures b > 0 && a >= 0 ==> q == a / b
    ensures Abs(a - q * b) < Abs(b)
    ensures a >= 0 ==> a - q * b >= 0
    ensures a <= 0 ==> a - q * b <= 0
  {
    var n := if a < 0 then -a else a;
    var d := if b < 0 then -b else b;
    if (a < 0) == (b < 0) then n / d else -(n / d)
  }

  /** `calcQPS` at clock reading `now` (seconds). The delta is the queries
      counted since the previous tick. In the same second it is added to
      the last slot; in a later second it becomes a new last slot, after
      the oldest slot is dropped if the buffer is at capacity; a clock that
      went backwards leaves the buffer alone. `None` is Go's index panic:
      the same second with an empty buffer indexes slot -1. */
  function CalcQps(s: Stats, now: int): (r: Option<Stats>)
    ensures r.None? <==> s.lastTime == now && |s.qps| == 0
    ensures r.Some? ==> r.value.lastTime == now && r.value.lastCount == s.queryCount
    ensures r.Some? && |s.qps| <= MaxQpsCount ==> |r.value.qps| <= MaxQpsCount
    ensures r.Some? && s.lastTime == now ==>
      && |r.value.qps| == |s.qps|
      && r.value.qps[..|s.qps| - 1] == s.qps[..|s.qps| - 1]
      && Last(r.value.qps) == Last(s.qps) + (s.queryCount - s.lastCount)
    ensures s.lastTime < now ==>
      && r.Some?
      && r.value.qps == (if |s.qps| >= MaxQpsCount then s.qps[1..] else s.qps) + [s.queryCount - s.lastCount]
    ensures s.lastTime > now ==> r.Some? && r.value.qps == s.qps
    ensures r.Some? ==> (r.value.qpsAverage ==
      if now - s.timeStarted > 0 then GoDiv(s.queryCount, now - s.timeStarted) else s.queryCount)
    ensures r.Some? ==>
      r.value.(qps := s.qps, qpsAverage := s.qpsAverage, lastCount := s.lastCount, lastTime := s.lastTime) == s
  {
    var count := s.queryCount;
    var delta := count - s.lastCount;
    if s.lastTime == now && |s.qps| == 0 then None
    else
      var qps :=
        if s.lastTime == now then s.qps[|s.qps| - 1 := Last(s.qps) + delta]
        else if s.lastTime < now then (if |s.qps| >= MaxQpsCount then s.qps[1..] else s.qps) + [delta]
        else s.qps;
      var elapsed := now - s.timeStarted;
      var average := if elapsed > 0 then GoDiv(count, elapsed) else count;
      Some(s.(qps := qps, qpsAverage := average, lastCount := s.lastCount + delta, lastTime := now))
  }

  function Sum(xs: seq<int>): int {
    if |xs| == 0 then 0 else Sum(xs[..|xs| - 1]) + Last(xs)
  }

  /** The buffer total equals the running count while the clock never goes
      backwards and the buffer is not yet trimmed: each tick adds its delta
      to the buffer and to `lastCount` alike. */
  lemma CalcQpsKeepsSum(s: Stats, now: int)
    requires Sum(s.qps) == s.lastCount
    requires s.lastTime <= now && |s.qps| < MaxQpsCount
    requires CalcQps(s, now).Some?
    ensures Sum(CalcQps(s, now).value.qps) == CalcQps(s, now).value.lastCount
  {
    var r := CalcQps(s, now).value;
    if s.lastTime == now {
      assert r.qps[..|r.qps| - 1] == s.qps[..|s.qps| - 1];
    } else {
      assert r.qps[..|r.qps| - 1] == s.qps;
    }
  }

  /** `Qps`: a copy of the buffer, element by element. */
  method Qps(s: Stats) returns (r: seq<int>)
    ensures |r| == |s.qps|
    ensures forall i :: 0 <= i < |r| ==> r[i] == s.qps[i]
  {
    r := [];
    var i := 0;
    while i < |s.qps|
      invariant 0 <= i <= |s.qps|
      invariant r == s.qps[..i]
    {
      r := r + [s.qps[i]];
      i := i + 1;
    }
  }
}
