/** Retrying, and retrying over a round-robin pool. */
module Retry {
  import opened Lookups
  import opened Cyclic
  import opened Balance

  type Context = nat -> Option<Error>

  type Steps<R> = nat -> Result<R>

  /** The normalized result after some attempts. */
  function Came<R>(step: Steps<R>, calls: nat): Result<R> {
    if calls == 0 then Result(None, None) else Normalize(step(calls - 1))
  }

  /** What n attempts against the answers of `step` have come to, the context not having ended before any of them. */
  ghost predicate AllFailed<R>(step: Steps<R>, attempts: nat) {
    forall k: nat | k < attempts :: Normalize(step(k)).err.Some?
  }

  ghost predicate Live(context: Context, attempts: nat) {
    forall k: nat | k < attempts :: context(k).None?
  }

  /**
   * The result of a retried lookup that made `calls` attempts: the first success, or the context's error beside the
   * last response, or the last failure once the attempts are used up.
   */
  ghost predicate Retried<R>(retry: int, context: Context, step: Steps<R>, result: Result<R>, calls: nat) {
    var last := Came(step, calls);
    && (calls > 0 ==> calls <= retry)
    && Live(context, calls)
    && if calls > 0 && last.err.None? then
         AllFailed(step, calls - 1) && result == last
       else
         && AllFailed(step, calls)
         && if calls < retry then
              context(calls).Some? && result == Result(last.response, context(calls))
            else
              result == Normalize(last)
  }

  /** The attempt ends the lookup: it succeeds, or the context has ended after it, or it is the last. */
  predicate Stops<R>(retry: int, context: Context, step: Steps<R>, k: nat) {
    context(k).Some? || k >= retry || (k > 0 && Normalize(step(k - 1)).err.None?)
  }

  /**
   * As many attempts are made as it takes until one succeeds, the context has ended or they are used up; the response
   * is that of the last attempt, and so is the error, unless it is the context's.
   */
  lemma RetriedExactly<R>(retry: int, context: Context, step: Steps<R>, result: Result<R>, calls: nat)
    requires Retried(retry, context, step, result, calls)
    ensures Stops(retry, context, step, calls) && forall k: nat | k < calls :: !Stops(retry, context, step, k)
    ensures calls == 0 ==> result.response == None && result.err == if retry > 0 then context(0) else Some(NoResponse)
    ensures calls > 0 ==>
              var last := Normalize(step(calls - 1));
              && result.response == last.response
              && result.err == if last.err.Some? && calls < retry then context(calls) else last.err
  {
  }

  /** Retrying a resolver that keeps no state between attempts: its attempt k comes to step(k). */
  method RetryLookup<R>(retry: int, context: Context, step: Steps<R>) returns (result: Result<R>, calls: nat)
    ensures Retried(retry, context, step, result, calls)
  {
    result, calls := Result(None, None), 0;
    while calls < retry
      invariant calls > 0 ==> calls <= retry
      invariant forall k: nat | k < calls :: context(k).None?
      invariant AllFailed(step, calls)
      invariant result == Came(step, calls)
    {
      var err := context(calls);
      if err.Some? { return Result(result.response, err), calls; }
      result := Normalize(step(calls));
      calls := calls + 1;
      if result.err.None? { return; }
    }
    result := Normalize(result);
  }

  /** The pool's world, by the number of the attempt: the context, the members, and what a member asked then answers. */
  datatype World<!R> = World(context: Context, members: nat -> seq<Resolver>, answer: (nat, nat) -> Result<R>)

  class LoadBalanceResolver {
    const balancer: RoundRobinBalancer

    constructor (balancer: RoundRobinBalancer)
      ensures this.balancer == balancer
    {
      this.balancer := balancer;
    }

    /** Asks the member the balancer chooses; an empty pool has nobody to ask. */
    method Lookup<R>(members: seq<Resolver>, answer: nat -> Result<R>) returns (result: Result<R>, asked: Option<nat>)
      modifies balancer
      ensures balancer.idx == old(balancer.idx) + (if members == [] then 0 else 1)
      ensures asked.None? <==> members == []
      ensures asked.None? ==> result == Result(None, Some(NoResolver))
      ensures asked.Some? ==> Takes(members, old(balancer.idx), asked.value) && result == Normalize(answer(asked.value))
    {
      if |members| == 0 { return Result(None, Some(NoResolver)), None; }
      asked := balancer.Choose(members);
      if asked.None? { return Result(None, Some(NoResolver)), None; }
      result := Normalize(answer(asked.value));
    }
  }

  /** What attempt k of a lookup comes to, when it asked member asked[k]. */
  function StepOf<R>(world: World<R>, asked: seq<Option<nat>>): (step: Steps<R>) {
    (k: nat) => if k >= |asked| || asked[k].None? then Result(None, Some(NoResolver))
        else Normalize(world.answer(k, asked[k].value))
  }

  class RetryResolver {
    const retry: int
    const pool: LoadBalanceResolver

    constructor (retry: int, pool: LoadBalanceResolver)
      ensures this.retry == retry && this.pool == pool
    {
      this.retry, this.pool := retry, pool;
    }

    method Lookup<R>(world: World<R>) returns (result: Result<R>, asked: seq<Option<nat>>)
      modifies pool.balancer
      ensures Retried(retry, world.context, StepOf(world, asked), result, |asked|)
      ensures Tickets(world, old(pool.balancer.idx), asked)
    {
      hide Takes, Tickets, AllFailed, StepOf, Used, Retried, Live, Came;
      asked := [];
      result := Result(None, None);
      ghost var first := pool.balancer.idx;
      NoAttempt(world, first);
      var attempt := 0;
      while attempt < retry
        invariant 0 <= attempt == |asked| && (attempt > 0 ==> attempt <= retry)
        invariant Live(world.context, attempt) && AllFailed(StepOf(world, asked), attempt)
        invariant result == Came(StepOf(world, asked), attempt)
        invariant Tickets(world, first, asked)
        invariant pool.balancer.idx == first + Used(asked)
      {
        var err := world.context(attempt);
        if err.Some? {
          GivenUp(retry, world.context, StepOf(world, asked), result, attempt);
          return Result(result.response, err), asked;
        }
        LiveNext(world.context, attempt);
        var answer: nat -> Result<R> := (i: nat) => world.answer(attempt, i);
        var answered, member := pool.Lookup(world.members(attempt), answer);
        TicketsNext(world, first, asked, member);
        StepNext(world, asked, member, answered);
        UsedNext(asked, member);
        asked := asked + [member];
        result := Normalize(answered);
        attempt := attempt + 1;
        if result.err.None? {
          Succeeds(retry, world.context, StepOf(world, asked), result, attempt);
          return result, asked;
        }
      }
      UsedUp(retry, world.context, StepOf(world, asked), result, attempt);
      result := Normalize(result);
    }
  }

  // The ways an attempt and a retried lookup end.

  lemma NoAttempt<R>(world: World<R>, first: nat)
    ensures Live(world.context, 0) && AllFailed(StepOf(world, []), 0)
        && Came(StepOf(world, []), 0) == Result(None, None)
    ensures Tickets(world, first, []) && Used([]) == 0
  {
  }

  lemma LiveNext(context: Context, k: nat)
    requires Live(context, k) && context(k).None?
    ensures Live(context, k + 1)
  {
  }

  lemma StepNext<R>(world: World<R>, asked: seq<Option<nat>>, member: Option<nat>, answered: Result<R>)
    requires AllFailed(StepOf(world, asked), |asked|)
    requires answered == if member.None? then Result(None, Some(NoResolver))
        else Normalize(world.answer(|asked|, member.value))
    ensures Came(StepOf(world, asked + [member]), |asked| + 1) == Normalize(answered) == answered
    ensures AllFailed(StepOf(world, asked + [member]), if answered.err.Some? then |asked| + 1 else |asked|)
  {
    StepsGrow(world, asked, member);
  }

  lemma TicketsNext<R>(world: World<R>, first: nat, asked: seq<Option<nat>>, member: Option<nat>)
    requires Tickets(world, first, asked)
    requires if member.Some? then Takes(world.members(|asked|), first + Used(asked), member.value)
        else world.members(|asked|) == []
    ensures Tickets(world, first, asked + [member])
  {
    hide Takes, Used;
    var after := asked + [member];
    forall k: nat | k < |after| ensures TicketOk(world, first, after, k) {
      if k < |asked| { TicketKept(world, first, asked, member, k); } else { assert after[..k] == asked; }
    }
  }

  lemma GivenUp<R>(retry: int, context: Context, step: Steps<R>, result: Result<R>, calls: nat)
    requires calls < retry && Live(context, calls) && AllFailed(step, calls) && context(calls).Some?
    requires result == Came(step, calls)
    ensures Retried(retry, context, step, Result(result.response, context(calls)), calls)
  {
  }

  lemma Succeeds<R>(retry: int, context: Context, step: Steps<R>, result: Result<R>, calls: nat)
    requires 0 < calls <= retry && Live(context, calls) && AllFailed(step, calls - 1)
    requires result == Came(step, calls) && result.err.None?
    ensures Retried(retry, context, step, result, calls)
  {
  }

  lemma UsedUp<R>(retry: int, context: Context, step: Steps<R>, result: Result<R>, calls: nat)
    requires calls >= retry && (calls > 0 ==> calls == retry) && Live(context, calls) && AllFailed(step, calls)
    requires result == Came(step, calls)
    ensures Retried(retry, context, step, Normalize(result), calls)
  {
  }

  /** How many tickets the attempts drew: those that found the pool empty drew none. */
  function Used(asked: seq<Option<nat>>): nat {
    if asked == [] then 0 else Used(asked[..|asked| - 1]) + if asked[|asked| - 1].Some? then 1 else 0
  }

  lemma UsedNext(asked: seq<Option<nat>>, member: Option<nat>)
    ensures Used(asked + [member]) == Used(asked) + if member.Some? then 1 else 0
  {
    assert (asked + [member])[..|asked|] == asked;
  }

  /** Attempt k asked the member that its ticket names, or found nobody. */
  ghost predicate Tickets<R>(world: World<R>, first: nat, asked: seq<Option<nat>>) {
    forall k: nat | k < |asked| :: TicketOk(world, first, asked, k)
  }

  ghost predicate TicketOk<R>(world: World<R>, first: nat, asked: seq<Option<nat>>, k: nat)
    requires k < |asked|
  {
    if asked[k].Some? then Takes(world.members(k), first + Used(asked[..k]), asked[k].value) else world.members(k) == []
  }

  lemma TicketKept<R>(world: World<R>, first: nat, asked: seq<Option<nat>>, member: Option<nat>, k: nat)
    requires k < |asked| && TicketOk(world, first, asked, k)
    ensures TicketOk(world, first, asked + [member], k)
  {
    hide Takes, Used;
    assert (asked + [member])[..k] == asked[..k];
  }

  lemma StepsGrow<R>(world: World<R>, asked: seq<Option<nat>>, member: Option<nat>)
    ensures forall k: nat | k < |asked| :: StepOf(world, asked + [member])(k) == StepOf(world, asked)(k)
    ensures forall k: nat | k <= |asked| :: (asked + [member])[..k] == asked[..k]
  {
  }

  /** A pool of n members throughout. */
  ghost predicate SizeIs<R>(world: World<R>, n: nat) {
    n > 0 && forall k: nat :: |world.members(k)| == n
  }

  lemma {:induction false} UsedAll(asked: seq<Option<nat>>)
    requires forall k: nat | k < |asked| :: asked[k].Some?
    ensures Used(asked) == |asked|
  {
    if asked != [] {
      var before := asked[..|asked| - 1];
      assert forall k: nat | k < |before| :: before[k] == asked[k];
      UsedAll(before);
    }
  }

  /** In such a pool every attempt finds somebody: the member its own ticket names. */
  lemma AllUsed<R>(world: World<R>, first: nat, asked: seq<Option<nat>>, n: nat)
    requires SizeIs(world, n) && Tickets(world, first, asked)
    ensures forall k: nat | k < |asked| :: asked[k].Some? && Takes(world.members(k), first + k, asked[k].value)
  {
    hide Takes, Used;
    forall k: nat | k < |asked| ensures asked[k].Some? {
      assert |world.members(k)| == n && TicketOk(world, first, asked, k);
    }
    forall k: nat | k < |asked| ensures Takes(world.members(k), first + k, asked[k].value) {
      assert forall j: nat | j < k :: asked[..k][j] == asked[j];
      UsedAll(asked[..k]);
      assert TicketOk(world, first, asked, k);
    }
  }

  lemma StepNormal<R>(world: World<R>, asked: seq<Option<nat>>, k: nat)
    ensures Normalize(StepOf(world, asked)(k)) == StepOf(world, asked)(k)
    ensures StepOf(world, asked)(k).err.None? ==> StepOf(world, asked)(k).response.Some?
  {
    if k < |asked| && asked[k].Some? {
      assert StepOf(world, asked)(k) == Normalize(world.answer(k, asked[k].value));
    }
  }

  /** If some member is always available and answers, as many attempts as members find a success, whoever else fails. */
  lemma HealthyMemberFound<R>(world: World<R>, n: nat, retry: int, healthy: nat, first: nat, result: Result<R>,
      asked: seq<Option<nat>>)
    requires SizeIs(world, n) && retry >= n && healthy < n
    requires forall k: nat :: world.context(k).None?
    requires forall k: nat :: Available(world.members(k)[healthy]) && Normalize(world.answer(k, healthy)).err.None?
    requires Retried(retry, world.context, StepOf(world, asked), result, |asked|) && Tickets(world, first, asked)
    ensures result.err.None? && result.response.Some? && |asked| <= n
  {
    hide Position, Rem, LinearWalk, StopsAt;
    AllUsed(world, first, asked, n);
    var k := OffsetOf(first, healthy, n);
    OffsetMeets(first, healthy, n);
    assert Rem(first + k, n) == healthy by { TicketNames(first, k, n); }
    if k < |asked| {
      RoundRobinFinds(world.members(k), first + k, asked[k].value);
      assert StepOf(world, asked)(k).err.None?;
    }
    if |asked| > 0 { StepNormal(world, asked, |asked| - 1); }
  }

  lemma TicketNames(first: nat, k: nat, n: nat)
    requires n > 0
    ensures Position(first, k, n) == Rem(first + k, n)
  {
  }

  /** With no breakers and every answer a failure, n attempts ask each of the n members exactly once. */
  lemma EachAskedOnce<R>(world: World<R>, n: nat, first: nat, result: Result<R>, asked: seq<Option<nat>>)
    requires SizeIs(world, n)
    requires forall k: nat :: world.context(k).None?
    requires forall k: nat, i: nat | i < n ::
        Verdict(world.members(k)[i]).None? && Normalize(world.answer(k, i)).err.Some?
    requires Retried(n, world.context, StepOf(world, asked), result, |asked|) && Tickets(world, first, asked)
    ensures |asked| == n && result.err.Some?
    ensures forall i: nat | i < n :: exists k: nat :: k < n && asked[k] == Some(i)
    ensures forall j: nat, k: nat | j < k < n :: asked[j] != asked[k]
  {
    hide Position, LinearWalk, StopsAt, Rem, Verdict, Used;
    AllUsed(world, first, asked, n);
    forall k: nat | k < |asked| ensures asked[k] == Some(Position(first, k, n)) {
      AsksOwnTicket(world, n, k, first + k, asked[k].value);
      TicketNames(first, k, n);
    }
    forall k: nat | k < |asked| ensures StepOf(world, asked)(k).err.Some? {
      assert Normalize(world.answer(k, Position(first, k, n))).err.Some?;
    }
    assert |asked| == n;
    forall i: nat | i < n ensures exists k: nat :: k < n && asked[k] == Some(i) {
      OffsetMeets(first, i, n);
      assert asked[OffsetOf(first, i, n)] == Some(i);
    }
    forall j: nat, k: nat | j < k < n ensures asked[j] != asked[k] {
      if Position(first, j, n) == Position(first, k, n) { SamePosition(first, j, k, n); }
    }
  }

  /** Where nobody has a breaker a ticket is served by the member it names. */
  lemma AsksOwnTicket<R>(world: World<R>, n: nat, k: nat, ticket: nat, i: nat)
    requires SizeIs(world, n) && Takes(world.members(k), ticket, i)
    requires forall j: nat | j < n :: Verdict(world.members(k)[j]).None?
    ensures i == Rem(ticket, n)
  {
    hide Position, LinearWalk, StopsAt, Rem;
    assert |world.members(k)| == n;
    RoundRobinFinds(world.members(k), ticket, i);
  }

  lemma SamePosition(first: nat, j: nat, k: nat, n: nat)
    requires j < n && k < n && Position(first, j, n) == Position(first, k, n)
    ensures j == k
  {
    SameStep(first, j, k, n);
  }
}
