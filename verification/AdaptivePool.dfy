/** The adaptive pool as one caller drives it: construction, reservation and the retry loop. */
module AdaptivePool {
  import opened Lookups
  import opened Dns
  import opened AdaptiveRate
  import opened AdaptiveUpstreams
  import Cyclic

  datatype BuildError =
    | NoUpstreams
    | NilOption(index: nat)
    | BadOption(complaint: OptionError)
    | NilResolver(index: nat)

  /** How one attempt ended for the upstream that served it. */
  datatype Verdict = Good | Bad | Dropped

  /** Transport errors and overload-like response codes are worth a retry elsewhere. */
  function Failure(r: Result<Reply>): Option<Error> {
    if r.err.Some? then r.err
    else if r.response.None? then Some(NoResponse)
    else if r.response.value.head.rcode == RCODE_REFUSED || r.response.value.head.rcode == RCODE_SERVFAIL then
      Some(AdaptiveUpstream(r.response.value.head.rcode))
    else None
  }

  /** What a scan from `start` reads when nobody interferes. */
  function Readings(ups: seq<State>, excluded: seq<bool>, start: nat): (seen: seq<Read>)
    requires |excluded| == |ups|
    ensures |seen| == |ups|
  {
    seq(|ups|, k requires 0 <= k < |ups| =>
      var i := Cyclic.Position(start, k, |ups|); Read(i, excluded[i], AvailableAt(ups[i]), ups[i].inFlight))
  }

  lemma ReadingsCover(ups: seq<State>, excluded: seq<bool>, start: nat, i: nat) returns (k: nat)
    requires |excluded| == |ups| && i < |ups|
    ensures k < |ups| && Readings(ups, excluded, start)[k] == Read(i, excluded[i], AvailableAt(ups[i]), ups[i].inFlight)
  {
    k := Cyclic.OffsetOf(start, i, |ups|);
    Cyclic.OffsetMeets(start, i, |ups|);
  }

  /** The end of an attempt, on the upstream as it was with the request in flight. */
  function Finished(o: Options, u: State, verdict: Verdict, seen: int): State
    requires Valid(o) && InRange(o, u.rate)
  {
    match verdict
    case Good => Succeeded(o, u)
    case Bad => Failed(o, u, seen)
    case Dropped => Released(u)
  }

  /** One attempt: who was asked and answered what, when the slot was claimed and when the feedback was given. */
  datatype Attempt = Attempt(upstream: nat, answer: Result<Reply>, verdict: Verdict, claimed: int, seen: int)

  /** An attempt's whole effect on its upstream. */
  function Effect(o: Options, before: State, t: Attempt): State
    requires Valid(o) && InRange(o, before.rate)
  {
    Finished(o, Reserved(before, t.claimed), t.verdict, t.seen)
  }

  ghost predicate Runnable(o: Options, ups: seq<State>) {
    Valid(o) && forall u :: u in ups ==> InRange(o, u.rate)
  }

  ghost predicate AskedIn(trail: seq<Attempt>, u: nat) {
    exists i: nat :: i < |trail| && trail[i].upstream == u
  }

  /** The attempts lie one after the other within a stretch of time. */
  ghost predicate Orderly(trail: seq<Attempt>, from: int, to: int) {
    && from <= to
    && (forall i: nat | i < |trail| :: from <= trail[i].claimed <= trail[i].seen <= to)
    && (forall i: nat, j: nat | i < j < |trail| :: trail[i].seen <= trail[j].claimed)
  }

  /** Exactly the upstreams of the trail, all different, were tried once each, and no other was touched. */
  ghost predicate Tried(o: Options, before: seq<State>, after: seq<State>, trail: seq<Attempt>)
    requires Runnable(o, before)
  {
    && |after| == |before|
    && (forall i: nat, j: nat | i < j < |trail| :: trail[i].upstream != trail[j].upstream)
    && (forall i: nat | i < |trail| :: trail[i].upstream < |before| &&
          after[trail[i].upstream] == Effect(o, before[trail[i].upstream], trail[i]))
    && (forall u: nat | u < |before| && !AskedIn(trail, u) :: after[u] == before[u])
  }

  lemma AskedNext(trail: seq<Attempt>, t: Attempt, u: nat)
    ensures AskedIn(trail + [t], u) <==> AskedIn(trail, u) || u == t.upstream
  {
    if AskedIn(trail, u) {
      var i: nat :| i < |trail| && trail[i].upstream == u;
      assert (trail + [t])[i].upstream == u;
    }
    assert (trail + [t])[|trail|] == t;
  }

  lemma TriedNext(o: Options, before: seq<State>, mid: seq<State>, trail: seq<Attempt>, t: Attempt)
    requires Runnable(o, before) && Tried(o, before, mid, trail)
    requires t.upstream < |before| && !AskedIn(trail, t.upstream)
    ensures Valid(o) && mid[t.upstream] == before[t.upstream] && InRange(o, before[t.upstream].rate)
    ensures Tried(o, before, mid[t.upstream := Effect(o, before[t.upstream], t)], trail + [t])
  {
    hide Effect;
    var k := t.upstream;
    assert before[k] in before;
    forall u: nat { AskedNext(trail, t, u); }
    forall i: nat | i < |trail| ensures trail[i].upstream != k { assert AskedIn(trail, trail[i].upstream); }
  }

  /** Field by field, what an attempt leaves of its upstream. */
  ghost predicate Leaves(o: Options, before: State, t: Attempt, after: State)
    requires before.rate > 0.0
  {
    && after.nextAllowed == t.claimed + IntervalForQPS(before.rate)
    && after.inFlight == before.inFlight
    && match t.verdict
       case Good =>
         && after.rate == Min(o.maxQPS, before.rate + Over(o.increase, before.rate))
         && after.successes == before.successes + 1 && after.failures == before.failures
         && after.cooldownUntil == before.cooldownUntil
       case Bad =>
         && after.rate == Max(o.minQPS, Times(before.rate, o.decrease))
         && after.failures == before.failures + 1 && after.successes == before.successes
         && after.cooldownUntil == t.seen + o.cooldown
       case Dropped =>
         && after.rate == before.rate && after.cooldownUntil == before.cooldownUntil
         && after.successes == before.successes && after.failures == before.failures
  }

  /** Each upstream tried is left, in every field, as its one attempt leaves it. */
  lemma TrialsLeave(o: Options, before: seq<State>, after: seq<State>, trail: seq<Attempt>, i: nat)
    requires Runnable(o, before) && Tried(o, before, after, trail) && i < |trail|
    ensures var u := trail[i].upstream;
      u < |before| == |after| && before[u].rate > 0.0 && Leaves(o, before[u], trail[i], after[u])
  {
    var u := trail[i].upstream;
    assert before[u] in before && after[u] == Effect(o, before[u], trail[i]);
  }

  /** A response without an error is tried elsewhere exactly for REFUSED (5) and SERVFAIL (2); an error always is. */
  lemma RetriedExactly(r: Result<Reply>)
    ensures Failure(r).None? <==>
              r.err.None? && r.response.Some? && r.response.value.head.rcode != 2 && r.response.value.head.rcode != 5
    ensures r.err.Some? ==> Failure(r) == r.err
    ensures r.err.None? && r.response.None? ==> Failure(r) == Some(NoResponse)
    ensures r.err.None? && r.response.Some? && r.response.value.head.rcode in {2, 5} ==>
              Failure(r) == Some(AdaptiveUpstream(r.response.value.head.rcode))
  {
  }

  /** The outside of a lookup: the clock, the caller's context and the upstream servers, all arbitrary. */
  class Environment {
    var now: int
    var calls: seq<nat>
    var answers: seq<Result<Reply>>
    var sleeps: nat

    constructor ()
      ensures calls == [] && answers == [] && sleeps == 0
    {
      now, calls, answers, sleeps := 0, [], [], 0;
    }

    method Now() returns (t: int)
      modifies this`now
      ensures t == now >= old(now)
    {
      var passed :| passed >= 0;
      now := now + passed;
      t := now;
    }

    method ContextError() returns (err: Option<Error>)
      ensures err in {None, Some(Canceled), Some(DeadlineExceeded)}
    {
      var verdict: int := *;
      err := if verdict == 0 then None else if verdict == 1 then Some(Canceled) else Some(DeadlineExceeded);
    }

    /** Waits for the time given, or less when the context ends first. */
    method Sleep(wait: int) returns (err: Option<Error>)
      modifies this`now, this`sleeps
      ensures sleeps == old(sleeps) + 1
      ensures err in {None, Some(Canceled), Some(DeadlineExceeded)}
      ensures now >= old(now) && (err.None? ==> now >= old(now) + wait)
    {
      var passed :| passed >= 0;
      sleeps := sleeps + 1;
      now := now + passed;
      err := ContextError();
      if err.None? && passed < wait { now := now + wait - passed; }
    }

    method Query(upstream: nat) returns (r: Result<Reply>)
      modifies this`now, this`calls, this`answers
      ensures calls == old(calls) + [upstream] && answers == old(answers) + [r]
      ensures now >= old(now)
    {
      var passed :| passed >= 0;
      now := now + passed;
      r := *;
      calls, answers := calls + [upstream], answers + [r];
    }
  }

  function Upstreams(trail: seq<Attempt>): seq<nat> {
    seq(|trail|, i requires 0 <= i < |trail| => trail[i].upstream)
  }

  function Answers(trail: seq<Attempt>): seq<Result<Reply>> {
    seq(|trail|, i requires 0 <= i < |trail| => trail[i].answer)
  }

  lemma TrailNext(trail: seq<Attempt>, t: Attempt)
    ensures Upstreams(trail + [t]) == Upstreams(trail) + [t.upstream]
    ensures Answers(trail + [t]) == Answers(trail) + [t.answer]
  {
  }

  function LastResponse(trail: seq<Attempt>): Option<Reply> {
    if trail == [] then None else trail[|trail| - 1].answer.response
  }

  ghost predicate BadUpTo(trail: seq<Attempt>, n: nat) {
    forall i: nat | i < n && i < |trail| :: trail[i].verdict == Bad && Failure(Normalize(trail[i].answer)).Some?
  }

  /** Every attempt failed, with these failures. */
  ghost predicate AllBad(trail: seq<Attempt>, failures: seq<Error>) {
    && |failures| == |trail| && BadUpTo(trail, |trail|)
    && forall i: nat | i < |trail| :: Failure(Normalize(trail[i].answer)) == Some(failures[i])
  }

  /** How the result of a lookup follows from its attempts. */
  ghost predicate Ended(o: Options, result: Result<Reply>, trail: seq<Attempt>) {
    var last := |trail| - 1;
    && result.response == LastResponse(trail) && BadUpTo(trail, if last >= 0 then last else 0)
    && match result.err
       case None => last >= 0 && trail[last].verdict == Good && Failure(Normalize(trail[last].answer)) == None
       case Some(Joined(errors)) => |trail| == o.maxAttempts && AllBad(trail, errors)
       case Some(other) =>
         && other in {Canceled, DeadlineExceeded}
         && (last >= 0 ==> trail[last].verdict == Bad || (trail[last].verdict == Dropped && other == Canceled))
  }

  /** The excluded upstreams are those tried. */
  ghost predicate Marks(excluded: seq<bool>, trail: seq<Attempt>) {
    forall u: nat | u < |excluded| :: excluded[u] <==> AskedIn(trail, u)
  }

  lemma MarksNext(excluded: seq<bool>, trail: seq<Attempt>, t: Attempt)
    requires Marks(excluded, trail) && t.upstream < |excluded| && !excluded[t.upstream]
    ensures !AskedIn(trail, t.upstream) && Marks(excluded[t.upstream := true], trail + [t])
  {
    hide AskedIn;
    forall u: nat | u < |excluded| ensures excluded[t.upstream := true][u] <==> AskedIn(trail + [t], u) {
      AskedNext(trail, t, u);
    }
  }

  lemma AskedIsUpstream(trail: seq<Attempt>, u: nat)
    ensures AskedIn(trail, u) ==> u in Upstreams(trail)
  {
    if AskedIn(trail, u) {
      var i: nat :| i < |trail| && trail[i].upstream == u;
      assert Upstreams(trail)[i] == u;
    }
  }

  lemma SomeoneUnmarked(excluded: seq<bool>, trail: seq<Attempt>)
    requires Marks(excluded, trail) && |trail| < |excluded|
    ensures exists u :: 0 <= u < |excluded| && !excluded[u]
  {
    var left := Cyclic.SomeoneLeft(Upstreams(trail), |excluded|);
    AskedIsUpstream(trail, left);
    assert !excluded[left];
  }

  /** Where a lookup stands whose attempts so far have all failed. */
  ghost predicate Progress(o: Options, before: seq<State>, ups: seq<State>, excluded: seq<bool>,
                           trail: seq<Attempt>, failures: seq<Error>, from: int, to: int) {
    && Runnable(o, before) && |excluded| == |ups| == |before|
    && Marks(excluded, trail) && Tried(o, before, ups, trail) && AllBad(trail, failures) && Orderly(trail, from, to)
  }

  lemma ProgressStarts(o: Options, before: seq<State>, excluded: seq<bool>, now: int)
    requires Runnable(o, before) && |excluded| == |before| && forall u :: 0 <= u < |excluded| ==> !excluded[u]
    ensures Progress(o, before, before, excluded, [], [], now, now)
  {
  }

  lemma ProgressMeans(o: Options, before: seq<State>, ups: seq<State>, excluded: seq<bool>,
                      trail: seq<Attempt>, failures: seq<Error>, from: int, to: int, later: int, ctx: Option<Error>)
    requires Progress(o, before, ups, excluded, trail, failures, from, to) && to <= later
    ensures |trail| < |excluded| ==> exists u :: 0 <= u < |excluded| && !excluded[u]
    ensures Runnable(o, before) && Tried(o, before, ups, trail) && Orderly(trail, from, later)
    ensures BadUpTo(trail, |trail|)
    ensures ctx in {Some(Canceled), Some(DeadlineExceeded)} ==> Ended(o, Result(LastResponse(trail), ctx), trail)
    ensures |trail| == o.maxAttempts ==> Ended(o, Result(LastResponse(trail), Some(Joined(failures))), trail)
  {
    hide Marks, Tried, Runnable, Failure;
    if |trail| < |excluded| { SomeoneUnmarked(excluded, trail); }
  }

  /** An attempt after those of the progress, with its effect. */
  ghost predicate Follows(o: Options, before: seq<State>, excluded: seq<bool>, t: Attempt, to: int, later: int) {
    t.upstream < |excluded| && !excluded[t.upstream] && to <= t.claimed <= t.seen <= later
  }

  lemma ProgressTried(o: Options, before: seq<State>, mid: seq<State>, excluded: seq<bool>,
                      trail: seq<Attempt>, failures: seq<Error>, from: int, to: int, t: Attempt, later: int)
    requires Progress(o, before, mid, excluded, trail, failures, from, to) && Follows(o, before, excluded, t, to, later)
    ensures var k := t.upstream;
      && k < |mid| && mid[k] == before[k] && Valid(o) && InRange(o, before[k].rate)
      && Tried(o, before, mid[k := Effect(o, before[k], t)], trail + [t])
    ensures Orderly(trail + [t], from, later) && Marks(excluded[t.upstream := true], trail + [t])
  {
    hide Marks, Tried, Effect, AllBad, Runnable;
    MarksNext(excluded, trail, t);
    TriedNext(o, before, mid, trail, t);
  }

  lemma ProgressFails(o: Options, before: seq<State>, mid: seq<State>, excluded: seq<bool>,
                      trail: seq<Attempt>, failures: seq<Error>, from: int, to: int, t: Attempt, later: int,
                          failure: Error)
    requires Progress(o, before, mid, excluded, trail, failures, from, to) && Follows(o, before, excluded, t, to, later)
    requires t.verdict == Bad && Failure(Normalize(t.answer)) == Some(failure)
    ensures var k := t.upstream;
      && k < |mid| && mid[k] == before[k] && Valid(o) && InRange(o, before[k].rate)
      && Progress(o, before, mid[k := Effect(o, before[k], t)], excluded[k := true],
                  trail + [t], failures + [failure], from, later)
  {
    ProgressTried(o, before, mid, excluded, trail, failures, from, to, t, later);
    hide Marks, Tried, Effect, Runnable, Orderly, Failure;
  }

  /** The last attempt of a lookup succeeds, or its context has ended. */
  lemma ProgressEnds(o: Options, before: seq<State>, mid: seq<State>, excluded: seq<bool>,
                     trail: seq<Attempt>, failures: seq<Error>, from: int, to: int, t: Attempt, later: int,
                         ctx: Option<Error>)
    requires Progress(o, before, mid, excluded, trail, failures, from, to) && Follows(o, before, excluded, t, to, later)
    requires match ctx
      case None => t.verdict == Good && Failure(Normalize(t.answer)).None?
      case Some(err) => err in {Canceled, DeadlineExceeded} && t.verdict == if err == Canceled then Dropped else Bad
    ensures var k := t.upstream;
      && k < |mid| && mid[k] == before[k] && Valid(o) && InRange(o, before[k].rate)
      && Tried(o, before, mid[k := Effect(o, before[k], t)], trail + [t])
    ensures Orderly(trail + [t], from, later) && Ended(o, Result(t.answer.response, ctx), trail + [t])
  {
    ProgressTried(o, before, mid, excluded, trail, failures, from, to, t, later);
    hide Marks, Tried, Effect, Runnable, Orderly, Failure;
  }

  // ---- Construction

  function Least(a: int, b: int): int {
    if a < b then a else b
  }

  function DefaultSettings(count: nat): Settings {
    Settings(Finite(10.0), Finite(1.0), Finite(1000.0), Finite(5.0), Finite(0.7), 100 * MILLISECOND, Least(3, count))
  }

  type Setter = Settings -> Settings

  predicate AllGiven(opts: seq<Option<Setter>>) {
    forall i :: 0 <= i < |opts| ==> opts[i].Some?
  }

  /** The settings after the options have been applied in order. */
  function Applied(s: Settings, opts: seq<Option<Setter>>): Settings
    requires AllGiven(opts)
  {
    if opts == [] then s else opts[|opts| - 1].value(Applied(s, opts[..|opts| - 1]))
  }

  class Pool {
    const options: Options
    const upstreams: seq<Upstream>
    var cursor: nat

    ghost predicate Usable()
      reads upstreams
    {
      && Valid(options)
      && options.maxAttempts <= |upstreams|
      && (forall i, j :: 0 <= i < j < |upstreams| ==> upstreams[i] != upstreams[j])
      && (forall i :: 0 <= i < |upstreams| ==> InRange(options, upstreams[i].rate))
    }

    ghost function States(): (ups: seq<State>)
      reads upstreams
      ensures |ups| == |upstreams|
    {
      seq(|upstreams|, i requires 0 <= i < |upstreams| reads upstreams => upstreams[i].Value())
    }

    constructor (o: Options, count: nat)
      requires Valid(o) && count > 0
      ensures Usable() && cursor == 0
      ensures options == o.(maxAttempts := Least(o.maxAttempts, count))
      ensures |upstreams| == count && forall i :: 0 <= i < count ==> States()[i] == Fresh(options)
      ensures fresh(upstreams)
    {
      var policy := o.(maxAttempts := Least(o.maxAttempts, count));
      var made: seq<Upstream> := [];
      while |made| < count
        invariant |made| <= count
        invariant forall i :: 0 <= i < |made| ==> fresh(made[i]) && made[i].Value() == Fresh(policy)
        invariant forall i, j :: 0 <= i < j < |made| ==> made[i] != made[j]
      {
        var u := new Upstream(policy);
        made := made + [u];
      }
      options, upstreams, cursor := policy, made, 0;
    }

    /** Builds a pool over resolvers, of which those marked false are nil; the first thing wrong is the error. */
    static method New(resolvers: seq<bool>, opts: seq<Option<Setter>>) returns (pool: Pool?, err: Option<BuildError>)
      ensures pool == null <==> err.Some?
      ensures err == Some(NoUpstreams) <==> resolvers == []
      ensures resolvers != [] && !AllGiven(opts) ==> err.Some? && err.value.NilOption?
      ensures err.Some? && err.value.NilOption? ==>
                var i := err.value.index; i < |opts| && opts[i].None? && AllGiven(opts[..i])
      ensures resolvers != [] && AllGiven(opts) ==>
                var s := Applied(DefaultSettings(|resolvers|), opts);
                if !Acceptable(s) then err == Some(BadOption(Validate(s).value))
                else if false in resolvers then err.Some? && err.value.NilResolver?
                else err.None? && pool.options == PolicyOf(s).(maxAttempts := Least(s.maxAttempts, |resolvers|))
      ensures err.Some? && err.value.NilResolver? ==>
                var i := err.value.index; i < |resolvers| && !resolvers[i] && false !in resolvers[..i]
      ensures pool != null ==> fresh(pool) && fresh(pool.upstreams) && pool.Usable() && |pool.upstreams| == |resolvers|
      ensures resolvers != [] && false !in resolvers && opts == [] ==>
                pool != null && pool.options ==
                Options(10.0, 1.0, 1000.0, 5.0, 0.7, 100_000_000, if |resolvers| < 3 then |resolvers| else 3)
    {
      pool := null;
      if |resolvers| == 0 { return pool, Some(NoUpstreams); }
      var settings := DefaultSettings(|resolvers|);
      for i := 0 to |opts|
        invariant AllGiven(opts[..i]) && settings == Applied(DefaultSettings(|resolvers|), opts[..i])
      {
        if opts[i].None? { return pool, Some(NilOption(i)); }
        assert opts[..i + 1][..i] == opts[..i];
        settings := opts[i].value(settings);
      }
      assert opts[..|opts|] == opts;
      var complaint := Validate(settings);
      if complaint.Some? { return pool, Some(BadOption(complaint.value)); }
      for i := 0 to |resolvers|
        invariant false !in resolvers[..i]
      {
        if !resolvers[i] { return pool, Some(NilResolver(i)); }
      }
      assert resolvers[..|resolvers|] == resolvers;
      pool := new Pool(PolicyOf(settings), |resolvers|);
      err := None;
    }

    /** One pass over the upstreams from `start`, skipping the excluded ones. */
    method ScanUpstreams(excluded: seq<bool>, start: nat, now: int) returns (scan: Scan)
      requires |excluded| == |upstreams| > 0
      ensures scan == ScanAll(Readings(States(), excluded, start), now)
    {
      hide Cyclic.Position;
      var n := |upstreams|;
      var selected: Option<nat>, selectedInFlight, earliest: Option<int> := None, 0, None;
      ghost var seen := Readings(States(), excluded, start);
      for offset := 0 to n
        invariant Scan(selected, selectedInFlight, earliest) == ScanAll(seen[..offset], now)
      {
        ScanStep(seen, offset, now);
        var i := Cyclic.Position(start, offset, n);
        if !excluded[i] {
          var availableAt := upstreams[i].nextAllowed;
          if upstreams[i].cooldownUntil > availableAt { availableAt := upstreams[i].cooldownUntil; }
          var inFlight := upstreams[i].inFlight;
          if availableAt > now {
            if earliest.None? || availableAt < earliest.value { earliest := Some(availableAt); }
          } else if selected.None? || inFlight < selectedInFlight {
            selected, selectedInFlight := Some(i), inFlight;
          }
        }
      }
      assert seen[..n] == seen;
      scan := Scan(selected, selectedInFlight, earliest);
    }

    lemma ScanStep(seen: seq<Read>, offset: nat, now: int)
      requires offset < |seen|
      ensures ScanAll(seen[..offset + 1], now) == Examine(ScanAll(seen[..offset], now), seen[offset], now)
    {
      assert seen[..offset + 1][..offset] == seen[..offset];
    }

    /** Claims an immediately available slot, or tells how long to wait for the first one. */
    method ReserveUpstream(excluded: seq<bool>, env: Environment) returns (slot: Option<nat>, wait: int, ghost now: int)
      requires Usable() && |excluded| == |upstreams|
      modifies this`cursor, upstreams, env`now
      ensures Usable() && cursor == old(cursor) + 1 && env.now >= old(env.now)
      ensures old(env.now) <= now <= env.now
      ensures Claimed(old(States()), States(), excluded, old(cursor), now, slot, wait, env.now)
    {
      hide Claimed, ScanAll, Readings, IntervalForQPS;
      var t := env.Now();
      now := t;
      var start := cursor % |upstreams|;
      cursor := cursor + 1;
      ghost var before := States();
      var scan := ScanUpstreams(excluded, start, t);
      if scan.selected.None? {
        slot, wait := None, MILLISECOND;
        if scan.earliest.Some? {
          var later := env.Now();
          wait := if scan.earliest.value - later > MILLISECOND then scan.earliest.value - later else MILLISECOND;
        }
        ScanBusy(before, excluded, old(cursor), now, wait, env.now);
      } else {
        var k := scan.selected.value;
        ScanFree(before, excluded, old(cursor), now, env.now);
        upstreams[k].Reserve(t);
        slot, wait := scan.selected, 0;
        assert States() == before[k := Reserved(before[k], now)];
      }
    }

    /** A scan that selects somebody selects the least loaded free upstream. */
    lemma ScanFree(before: seq<State>, excluded: seq<bool>, ticket: nat, now: int, returned: int)
      requires |before| == |excluded| > 0 && forall u :: u in before ==> u.rate > 0.0
      requires ScanAll(Readings(before, excluded, ticket % |before|), now).selected.Some?
      ensures var k := ScanAll(Readings(before, excluded, ticket % |before|), now).selected.value;
              && k < |before|
              && Claimed(before, before[k := Reserved(before[k], now)], excluded, ticket, now, Some(k), 0, returned)
    {
      hide Cyclic.Position, AvailableAt;
      var seen := Readings(before, excluded, ticket % |before|);
      ScanIsArgmin(seen, now);
      var k: nat :| LeastLoaded(seen, now, k) && Names(seen[k], ScanAll(seen, now));
    }

    /** A scan that selects nobody found everybody busy, and a long enough wait frees the first of them. */
    lemma ScanBusy(before: seq<State>, excluded: seq<bool>, ticket: nat, now: int, wait: int, returned: int)
      requires |before| == |excluded| > 0 && forall u :: u in before ==> u.rate > 0.0
      requires var s := ScanAll(Readings(before, excluded, ticket % |before|), now);
               s.selected.None? && wait >= MILLISECOND && (s.earliest.Some? ==> returned + wait >= s.earliest.value)
      ensures Claimed(before, before, excluded, ticket, now, None, wait, returned)
    {
      hide Cyclic.Position, AvailableAt;
      ScanIsArgmin(Readings(before, excluded, ticket % |before|), now);
      ScanFindsEarliest(Readings(before, excluded, ticket % |before|), now);
    }

    /** The meaning of a reservation made at `now`: the least loaded free upstream, or the first moment one is free. */
    ghost predicate Claimed(before: seq<State>, after: seq<State>, excluded: seq<bool>, ticket: nat, now: int,
                            slot: Option<nat>, wait: int, returned: int)
      requires |before| == |after| == |excluded| > 0
      requires forall u :: u in before ==> u.rate > 0.0
    {
      var seen := Readings(before, excluded, ticket % |before|);
      match slot
      case Some(i) =>
        && i < |before| && !excluded[i]
        && (exists k: nat :: LeastLoaded(seen, now, k) && seen[k].upstream == i)
        && after == before[i := Reserved(before[i], now)]
        && wait == 0
      case None =>
        && (forall j: nat | j < |seen| :: !Eligible(seen[j], now))
        && after == before
        && wait >= MILLISECOND
        && ((exists j: nat :: j < |seen| && Busy(seen[j], now)) ==>
              exists k: nat :: FirstFree(seen, now, k) && returned + wait >= seen[k].availableAt)
    }

    /** Asks a reserved upstream and feeds the outcome back; an ended context outranks the answer. */
    method CallUpstream(k: nat, env: Environment)
      returns (answer: Result<Reply>, ctx: Option<Error>, failure: Option<Error>, ghost verdict: Verdict,
          ghost seen: int)
      requires Usable() && k < |upstreams|
      modifies upstreams[k], env`now, env`calls, env`answers
      ensures Usable() && env.now >= old(env.now)
      ensures |env.answers| == |old(env.answers)| + 1 && old(env.answers) <= env.answers
      ensures env.calls == old(env.calls) + [k] && answer == Normalize(env.answers[|old(env.answers)|])
      ensures ctx in {None, Some(Canceled), Some(DeadlineExceeded)} && failure == Failure(answer)
      ensures verdict == match ctx
                case Some(DeadlineExceeded) => Bad
                case Some(_) => Dropped
                case None => if failure.None? then Good else Bad
      ensures old(env.now) <= seen <= env.now && old(States()[k]) in old(States())
      ensures States() == old(States())[k := Finished(options, old(States()[k]), verdict, seen)]
    {
      answer := env.Query(k);
      answer := Normalize(answer);
      ctx := env.ContextError();
      failure := Failure(answer);
      ghost var before := States();
      if ctx == Some(Canceled) {
        upstreams[k].Release();
        verdict, seen := Dropped, env.now;
      } else if ctx.None? && failure.None? {
        upstreams[k].ObserveSuccess(options);
        verdict, seen := Good, env.now;
      } else {
        var t := env.Now();
        upstreams[k].ObserveFailure(options, t);
        verdict, seen := Bad, t;
      }
      assert States() == before[k := Finished(options, before[k], verdict, seen)];
    }

    /** One turn of the reservation: a slot, or a wait for the first one. */
    method ClaimOrWait(excluded: seq<bool>, env: Environment)
      returns (slot: Option<nat>, err: Option<Error>, ghost now: int)
      requires Usable() && |excluded| == |upstreams| && exists u :: 0 <= u < |excluded| && !excluded[u]
      modifies this`cursor, upstreams, env`now, env`sleeps
      ensures Usable() && Runnable(options, old(States())) && old(env.now) <= now <= env.now
      ensures match slot
        case Some(k) =>
          && env.sleeps == old(env.sleeps) && err.None? && k < |upstreams| && !excluded[k]
                && old(States()[k]).rate > 0.0
          && States() == old(States())[k := Reserved(old(States()[k]), now)]
        case None =>
          && env.sleeps == old(env.sleeps) + 1 && err in {None, Some(Canceled), Some(DeadlineExceeded)}
          && States() == old(States()) && !SomeoneFree(States(), excluded, old(env.now))
          && (err.None? ==> SomeoneFree(States(), excluded, env.now))
    {
      hide Readings, LeastLoaded, Reserved, ScanAll, Claimed, SomeoneFree, Runnable, Valid, InRange, Cyclic.OffsetOf,
          Usable, States, AvailableAt, IntervalForQPS;
      UsableMeans();
      ghost var standing, ticket, clock := States(), cursor, env.now;
      var wait: int;
      slot, wait, now := ReserveUpstream(excluded, env);
      ClaimMeans(standing, States(), excluded, ticket, now, slot, wait, env.now);
      err := None;
      if slot.None? {
        WaitLeadsToSlot(standing, excluded, ticket, now, wait, env.now, clock);
        err := env.Sleep(wait);
      }
    }

    /**
     * Retries on distinct upstreams until one answers, the attempts are used up or the context ends.
     * The trail tells whom it asked, what they answered and which feedback was given, and when.
     */
    method Lookup(env: Environment) returns (result: Result<Reply>, ghost trail: seq<Attempt>)
      requires Usable()
      modifies this`cursor, upstreams, env
      ensures Usable() && Runnable(options, old(States()))
      ensures env.calls == old(env.calls) + Upstreams(trail) && env.answers == old(env.answers) + Answers(trail)
      ensures |trail| <= options.maxAttempts && Tried(options, old(States()), States(), trail)
      ensures Orderly(trail, old(env.now), env.now)
      ensures env.sleeps - old(env.sleeps) <= options.maxAttempts
      ensures Ended(options, result, trail)
    {
      hide Effect, Failure, Readings, LeastLoaded, Reserved, Finished, ScanAll, Claimed, Tried, Ended, AllBad,
        SomeoneFree, Runnable, Marks, Progress, Orderly, Valid, InRange, Cyclic.OffsetOf, Usable, States, AvailableAt,
        IntervalForQPS, Upstreams, Answers;
      trail := [];
      UsableMeans();
      var excluded := seq(|upstreams|, _ => false);
      ghost var before, calls, answers, sleeps, from := States(), env.calls, env.answers, env.sleeps, env.now;
      ghost var to := from;
      NoTrail();
      ProgressStarts(options, before, excluded, from);
      var failures: seq<Error> := [];
      var lastResponse: Option<Reply> := None;
      var attempt := 0;
      ghost var waited := false;
      var ctx := env.ContextError();
      if ctx.Some? {
        ProgressMeans(options, before, States(), excluded, trail, failures, from, to, env.now, ctx);
        return Result(None, ctx), trail;
      }
      while attempt < options.maxAttempts
        invariant Usable() && |excluded| == |upstreams| && from <= to <= env.now
        invariant Progress(options, before, States(), excluded, trail, failures, from, to)
        invariant 0 <= attempt == |trail| <= options.maxAttempts && lastResponse == LastResponse(trail)
        invariant env.calls == calls + Upstreams(trail) && env.answers == answers + Answers(trail)
        invariant env.sleeps - sleeps <= attempt + if waited then 1 else 0
        invariant waited ==> attempt < options.maxAttempts && SomeoneFree(States(), excluded, env.now)
        decreases options.maxAttempts - attempt, if waited then 0 else 1
      {
        UsableMeans();
        ProgressMeans(options, before, States(), excluded, trail, failures, from, to, env.now, None);
        ghost var standing := States();
        var slot, err, now := ClaimOrWait(excluded, env);
        if slot.None? {
          waited := true;
          if err.Some? {
            ProgressMeans(options, before, States(), excluded, trail, failures, from, to, env.now, err);
            return Result(lastResponse, err), trail;
          }
          continue;
        }
        var k := slot.value;
        attempt := attempt + 1;
        var answer, ended, failure, verdict, seen := CallUpstream(k, env);
        ghost var t := Attempt(k, env.answers[|env.answers| - 1], verdict, now, seen);
        TrailNext(trail, t);
        if ended.Some? || failure.None? {
          ProgressEnds(options, before, standing, excluded, trail, failures, from, to, t, env.now, ended);
          EffectIs(options, before[k], t);
          assert States() == standing[k := Effect(options, before[k], t)];
          return Result(answer.response, ended), trail + [t];
        }
        ProgressFails(options, before, standing, excluded, trail, failures, from, to, t, env.now, failure.value);
        EffectIs(options, before[k], t);
        assert States() == standing[k := Effect(options, before[k], t)];
        trail, to := trail + [t], env.now;
        excluded := excluded[k := true];
        lastResponse := answer.response;
        failures := failures + [failure.value];
        waited := false;
      }
      ProgressMeans(options, before, States(), excluded, trail, failures, from, to, env.now, None);
      result := Result(lastResponse, Some(Joined(failures)));
    }

    lemma NoTrail()
      ensures Upstreams([]) == [] && Answers([]) == []
    {
    }

    lemma EffectIs(o: Options, before: State, t: Attempt)
      requires Valid(o) && InRange(o, before.rate)
      ensures Effect(o, before, t) == Finished(o, Reserved(before, t.claimed), t.verdict, t.seen)
    {
    }

    lemma UsableMeans()
      requires Usable()
      ensures Runnable(options, States()) && 0 < options.maxAttempts <= |upstreams|
      ensures forall u :: u in States() ==> u.rate > 0.0
    {
    }

    ghost predicate SomeoneFree(ups: seq<State>, excluded: seq<bool>, now: int) {
      |ups| == |excluded| && exists u :: 0 <= u < |ups| && !excluded[u] && AvailableAt(ups[u]) <= now
    }

    lemma ClaimMeans(before: seq<State>, after: seq<State>, excluded: seq<bool>, ticket: nat, now: int,
                     slot: Option<nat>, wait: int, returned: int)
      requires |before| == |after| == |excluded| > 0 && Runnable(options, before)
      requires Claimed(before, after, excluded, ticket, now, slot, wait, returned)
      ensures slot.None? ==> after == before && !SomeoneFree(before, excluded, now)
      ensures slot.Some? ==> slot.value < |before| && !excluded[slot.value]
                             && after == before[slot.value := Reserved(before[slot.value], now)]
    {
      if slot.None? {
        forall u | 0 <= u < |before| && !excluded[u] ensures AvailableAt(before[u]) > now {
          var k := ReadingsCover(before, excluded, ticket % |before|, u);
          assert !Eligible(Readings(before, excluded, ticket % |before|)[k], now);
        }
      }
    }

    /** After the wait some upstream is free; so a caller that is alone never waits twice in a row. */
    lemma WaitLeadsToSlot(standing: seq<State>, excluded: seq<bool>, ticket: nat, now: int, wait: int, returned: int,
        clock: int)
      requires |standing| == |excluded| > 0 && Runnable(options, standing)
      requires clock <= now <= returned
      requires Claimed(standing, standing, excluded, ticket, now, None, wait, returned)
      requires exists u :: 0 <= u < |excluded| && !excluded[u]
      ensures !SomeoneFree(standing, excluded, clock)
      ensures forall later :: later >= returned + wait ==> SomeoneFree(standing, excluded, later)
    {
      hide Cyclic.Position;
      var start := ticket % |standing|;
      var seen := Readings(standing, excluded, start);
      forall u | 0 <= u < |standing| && !excluded[u] ensures AvailableAt(standing[u]) > now {
        var k := ReadingsCover(standing, excluded, start, u);
        assert !Eligible(seen[k], now);
      }
      var u :| 0 <= u < |excluded| && !excluded[u];
      var k := ReadingsCover(standing, excluded, start, u);
      assert Busy(seen[k], now);
      var f: nat :| FirstFree(seen, now, f) && returned + wait >= seen[f].availableAt;
      assert !excluded[seen[f].upstream];
    }
  }
}
