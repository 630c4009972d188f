/** One upstream of the adaptive pool, and the scan that picks one of many. */
module AdaptiveUpstreams {
  import opened Lookups
  import opened AdaptiveRate

  /** What an upstream's mutex guards. */
  datatype State = State(
    rate: real, nextAllowed: int, cooldownUntil: int,
    successes: nat, failures: nat, inFlight: int)

  function Fresh(o: Options): State {
    State(o.initialQPS, 0, 0, 0, 0, 0)
  }

  function AvailableAt(u: State): int {
    if u.cooldownUntil > u.nextAllowed then u.cooldownUntil else u.nextAllowed
  }

  /** A slot claimed at `now`. */
  function Reserved(u: State, now: int): State
    requires u.rate > 0.0
  {
    u.(nextAllowed := now + IntervalForQPS(u.rate), inFlight := u.inFlight + 1)
  }

  function Released(u: State): State {
    u.(inFlight := u.inFlight - 1)
  }

  function Succeeded(o: Options, u: State): State
    requires Valid(o) && InRange(o, u.rate)
  {
    u.(inFlight := u.inFlight - 1, successes := u.successes + 1, rate := Raised(o, u.rate))
  }

  function Failed(o: Options, u: State, now: int): State
    requires Valid(o) && InRange(o, u.rate)
  {
    u.(inFlight := u.inFlight - 1, failures := u.failures + 1, rate := Lowered(o, u.rate),
       cooldownUntil := now + o.cooldown)
  }

  /** What the scan saw of one upstream, in the order of the scan. */
  datatype Read = Read(upstream: nat, excluded: bool, availableAt: int, inFlight: int)

  datatype Scan = Scan(selected: Option<nat>, selectedInFlight: int, earliest: Option<int>)

  const EMPTY_SCAN := Scan(None, 0, None)

  function Examine(s: Scan, r: Read, now: int): Scan {
    if r.excluded then
      s
    else if r.availableAt > now then
      if s.earliest.None? || r.availableAt < s.earliest.value then s.(earliest := Some(r.availableAt)) else s
    else if s.selected.None? || r.inFlight < s.selectedInFlight then
      s.(selected := Some(r.upstream), selectedInFlight := r.inFlight)
    else
      s
  }

  function ScanAll(seen: seq<Read>, now: int): Scan {
    if seen == [] then EMPTY_SCAN
    else Examine(ScanAll(seen[..|seen| - 1], now), seen[|seen| - 1], now)
  }

  predicate Eligible(r: Read, now: int) {
    !r.excluded && r.availableAt <= now
  }

  predicate Busy(r: Read, now: int) {
    !r.excluded && r.availableAt > now
  }

  /** Read k is the least of the eligible ones in (requests in flight, position in the scan). */
  ghost predicate LeastLoaded(seen: seq<Read>, now: int, k: nat) {
    && k < |seen| && Eligible(seen[k], now)
    && forall j: nat | j < |seen| && Eligible(seen[j], now) ::
         seen[k].inFlight < seen[j].inFlight || (seen[k].inFlight == seen[j].inFlight && k <= j)
  }

  /** The scan names the upstream of this read, with the load it saw. */
  predicate Names(r: Read, s: Scan) {
    s.selected == Some(r.upstream) && s.selectedInFlight == r.inFlight
  }

  /** Read k is a not excluded upstream that becomes available first. */
  ghost predicate FirstFree(seen: seq<Read>, now: int, k: nat) {
    && k < |seen| && Busy(seen[k], now)
    && forall j: nat | j < |seen| && Busy(seen[j], now) :: seen[k].availableAt <= seen[j].availableAt
  }

  lemma LeastExtends(seen: seq<Read>, now: int, k: nat)
    requires |seen| > 0 && k < |seen| - 1 && LeastLoaded(seen[..|seen| - 1], now, k)
    ensures var last := seen[|seen| - 1];
            LeastLoaded(seen, now, if Eligible(last, now) && last.inFlight < seen[k].inFlight then |seen| - 1 else k)
  {
    hide Eligible;
    var prefix := seen[..|seen| - 1];
    assert forall j: nat | j < |prefix| :: prefix[j] == seen[j];
  }

  /** The scan is an exact argmin over the upstreams it may use. */
  lemma {:induction false} ScanIsArgmin(seen: seq<Read>, now: int)
    ensures var s := ScanAll(seen, now);
            s.selected.None? <==> forall j: nat | j < |seen| :: !Eligible(seen[j], now)
    ensures var s := ScanAll(seen, now);
            s.selected.Some? ==> exists k: nat :: LeastLoaded(seen, now, k) && Names(seen[k], s)
  {
    if seen != [] {
      var n := |seen| - 1;
      var prefix, last := seen[..n], seen[n];
      ScanIsArgmin(prefix, now);
      var before := ScanAll(prefix, now);
      assert forall j: nat | j < n :: prefix[j] == seen[j];
      if before.selected.Some? {
        var k: nat :| LeastLoaded(prefix, now, k) && Names(prefix[k], before);
        LeastExtends(seen, now, k);
      } else if Eligible(last, now) {
        assert LeastLoaded(seen, now, n);
      }
    }
  }

  /** With nobody to use, the scan reports the first moment somebody will be free. */
  lemma {:induction false} ScanFindsEarliest(seen: seq<Read>, now: int)
    ensures var s := ScanAll(seen, now);
            s.earliest.None? <==> forall j: nat | j < |seen| :: !Busy(seen[j], now)
    ensures var s := ScanAll(seen, now);
            s.earliest.Some? ==> exists k: nat :: FirstFree(seen, now, k) && s.earliest == Some(seen[k].availableAt)
  {
    if seen != [] {
      var n := |seen| - 1;
      var prefix, last := seen[..n], seen[n];
      ScanFindsEarliest(prefix, now);
      var before := ScanAll(prefix, now);
      assert forall j: nat | j < n :: prefix[j] == seen[j];
      if before.earliest.Some? {
        var k: nat :| FirstFree(prefix, now, k) && before.earliest == Some(prefix[k].availableAt);
        var moved := Busy(last, now) && last.availableAt < before.earliest.value;
        assert FirstFree(seen, now, if moved then n else k);
      } else if Busy(last, now) {
        assert FirstFree(seen, now, n);
      }
    }
  }

  class Upstream {
    var rate: real
    var nextAllowed: int
    var cooldownUntil: int
    var successes: nat
    var failures: nat
    var inFlight: int

    ghost function Value(): State
      reads this
    {
      State(rate, nextAllowed, cooldownUntil, successes, failures, inFlight)
    }

    constructor (o: Options)
      ensures Value() == Fresh(o)
    {
      rate, nextAllowed, cooldownUntil := o.initialQPS, 0, 0;
      successes, failures, inFlight := 0, 0, 0;
    }

    method Reserve(now: int)
      requires rate > 0.0
      modifies this
      ensures Value() == Reserved(old(Value()), now)
      ensures nextAllowed == now + IntervalForQPS(old(rate)) && inFlight == old(inFlight) + 1
    {
      nextAllowed := now + IntervalForQPS(rate);
      inFlight := inFlight + 1;
    }

    method Release()
      modifies this
      ensures Value() == Released(old(Value()))
      ensures Value() == old(Value()).(inFlight := old(inFlight) - 1)
    {
      inFlight := inFlight - 1;
    }

    method ObserveSuccess(o: Options)
      requires Valid(o) && InRange(o, rate)
      modifies this
      ensures Value() == Succeeded(o, old(Value()))
      ensures rate == Min(o.maxQPS, old(rate) + Over(o.increase, old(rate)))
      ensures successes == old(successes) + 1 && failures == old(failures) && inFlight == old(inFlight) - 1
      ensures nextAllowed == old(nextAllowed) && cooldownUntil == old(cooldownUntil)
    {
      inFlight := inFlight - 1;
      successes := successes + 1;
      var increase := Over(o.increase, rate);
      rate := Min(o.maxQPS, rate + increase);
    }

    method ObserveFailure(o: Options, now: int)
      requires Valid(o) && InRange(o, rate)
      modifies this
      ensures Value() == Failed(o, old(Value()), now)
      ensures rate == Max(o.minQPS, Times(old(rate), o.decrease)) && cooldownUntil == now + o.cooldown
      ensures failures == old(failures) + 1 && successes == old(successes) && inFlight == old(inFlight) - 1
      ensures nextAllowed == old(nextAllowed)
    {
      inFlight := inFlight - 1;
      failures := failures + 1;
      rate := Max(o.minQPS, Times(rate, o.decrease));
      cooldownUntil := now + o.cooldown;
    }
  }
}
