/**
 * Racing lookups: n senders, one buffered channel of capacity n, and the collector that takes the first success.
 * Steps of the senders, the collector and the caller's context interleave freely.
 */
module Racing {
  import opened Lookups

  datatype Sender<R> = Running | Ready(result: Result<R>) | Sent(result: Result<R>)

  datatype Collector<R> = Collecting | Done(result: Result<R>)

  /**
   * `sent` and `taken` are histories: the results put into the channel and those the collector has received, in order.
   * `makers` says which sender made each result of `sent`.
   */
  datatype Race<R> = Race(
    senders: seq<Sender<R>>, channel: seq<Result<R>>, capacity: nat, ended: Option<Error>,
    failures: seq<Error>, failedResponse: Option<R>, collector: Collector<R>,
    sent: seq<Result<R>>, makers: seq<nat>, taken: seq<Result<R>>)

  datatype Action<R> =
    | Finish(i: nat, result: Result<R>)
    | Send(i: nat)
    | Take
    | Complete
    | EndContext(err: Error)
    | GiveUp

  ghost predicate Enabled<R>(s: Race<R>, a: Action<R>) {
    match a
    case Finish(i, _) => i < |s.senders| && s.senders[i].Running?
    case Send(i) => i < |s.senders| && s.senders[i].Ready? && |s.channel| < s.capacity
    case Take => s.collector.Collecting? && |s.taken| < |s.senders| && s.channel != []
    case Complete => s.collector.Collecting? && |s.taken| == |s.senders| > 0
    case EndContext(_) => s.ended.None?
    case GiveUp => s.collector.Collecting? && |s.taken| < |s.senders| && s.ended.Some?
  }

  function Apply<R>(s: Race<R>, a: Action<R>): Race<R>
    requires Enabled(s, a)
  {
    match a
    case Finish(i, result) => s.(senders := s.senders[i := Ready(Normalize(result))])
    case Send(i) =>
      var result := s.senders[i].result;
      s.(senders := s.senders[i := Sent(result)], channel := s.channel + [result],
         sent := s.sent + [result], makers := s.makers + [i])
    case Take =>
      var result := s.channel[0];
      var t := s.(channel := s.channel[1..], taken := s.taken + [result]);
      if result.err.None? then t.(collector := Done(Result(result.response, None)))
      else t.(failures := s.failures + [result.err.value],
              failedResponse := if s.failedResponse.None? then result.response else s.failedResponse)
    case Complete => s.(collector := Done(Result(s.failedResponse, Some(Joined(s.failures)))))
    case EndContext(err) => s.(ended := Some(err))
    case GiveUp => s.(collector := Done(Result(s.failedResponse, s.ended)))
  }

  ghost predicate Possible<R>(s: Race<R>, run: seq<Action<R>>)
    decreases |run|
  {
    run == [] || (Enabled(s, run[0]) && Possible(Apply(s, run[0]), run[1..]))
  }

  ghost function Exec<R>(s: Race<R>, run: seq<Action<R>>): Race<R>
    requires Possible(s, run)
    decreases |run|
  {
    if run == [] then s else Exec(Apply(s, run[0]), run[1..])
  }

  /** A lookup over n resolvers: nothing is raced when the context has ended already or there is nobody to ask. */
  function Start<R>(n: nat, context: Option<Error>): Race<R> {
    if context.Some? then Race([], [], 0, context, [], None, Done(Result(None, context)), [], [], [])
    else if n == 0 then Race([], [], 0, None, [], None, Done(Result(None, Some(NoResolver))), [], [], [])
    else Race(seq(n, _ => Running), [], n, None, [], None, Collecting, [], [], [])
  }

  function SentCount<R>(senders: seq<Sender<R>>): (count: nat)
    ensures count <= |senders|
  {
    if senders == [] then 0 else SentCount(senders[1..]) + if senders[0].Sent? then 1 else 0
  }

  lemma {:induction false} SentCountUpdate<R>(senders: seq<Sender<R>>, i: nat, next: Sender<R>)
    requires i < |senders| && !senders[i].Sent?
    ensures SentCount(senders[i := next]) == SentCount(senders) + if next.Sent? then 1 else 0
    ensures SentCount(senders) < |senders|
  {
    var after := senders[i := next];
    if i == 0 {
      assert after[1..] == senders[1..];
    } else {
      SentCountUpdate(senders[1..], i - 1, next);
      assert after[1..] == senders[1..][i - 1 := next];
    }
  }

  lemma {:induction false} NoneSent<R>(senders: seq<Sender<R>>)
    requires forall i: nat | i < |senders| :: !senders[i].Sent?
    ensures SentCount(senders) == 0
  {
    if senders != [] { NoneSent(senders[1..]); }
  }

  /** The errors of a run of failed results, in order. */
  function Errors<R>(taken: seq<Result<R>>): seq<Error> {
    if taken == [] then []
    else
      var last := taken[|taken| - 1];
      Errors(taken[..|taken| - 1]) + if last.err.Some? then [last.err.value] else []
  }

  /** The earliest response among the results. */
  function FirstResponse<R>(taken: seq<Result<R>>): Option<R> {
    if taken == [] then None
    else
      var before := FirstResponse(taken[..|taken| - 1]);
      if before.Some? then before else taken[|taken| - 1].response
  }

  ghost predicate AllFailed<R>(taken: seq<Result<R>>) {
    forall k: nat | k < |taken| :: taken[k].err.Some?
  }

  /** Counting: what was sent is taken or still in the channel, and each sender sends once. */
  ghost predicate CountInv<R>(s: Race<R>) {
    s.capacity == |s.senders| && |s.sent| == SentCount(s.senders) && s.sent == s.taken + s.channel
  }

  /** Every result in the channel was made by a sender of its own, and is no empty success. */
  ghost predicate MakersInv<R>(s: Race<R>) {
    && |s.sent| == |s.makers|
    && (forall i: nat | i < |s.senders| && s.senders[i].Ready? :: Proper(s.senders[i].result))
    && (forall k: nat | k < |s.sent| :: Proper(s.sent[k]))
    && (forall k: nat | k < |s.makers| :: s.makers[k] < |s.senders| && s.senders[s.makers[k]] == Sent(s.sent[k]))
    && (forall j: nat, k: nat | j < k < |s.makers| :: s.makers[j] != s.makers[k])
  }

  ghost predicate FlowInv<R>(s: Race<R>) {
    CountInv(s) && MakersInv(s)
  }

  /** No result is an empty success. */
  predicate Proper<R>(r: Result<R>) {
    r.err.None? ==> r.response.Some?
  }

  ghost predicate CollectInv<R>(s: Race<R>) {
    match s.collector
    case Collecting =>
      AllFailed(s.taken) && s.failures == Errors(s.taken) && s.failedResponse == FirstResponse(s.taken)
    case Done(result) => Outcome(s, result)
  }

  /**
   * How a race may end: with the first success to arrive; with all n errors joined in order of arrival, beside the
   * earliest failed response; with the context's error beside the earliest failed response so far; or refused.
   */
  ghost predicate Outcome<R>(s: Race<R>, result: Result<R>) {
    || (result.err.None? && |s.taken| > 0 && AllFailed(s.taken[..|s.taken| - 1]) && result == s.taken[|s.taken| - 1])
    || (|s.taken| == |s.senders| > 0 && AllFailed(s.taken)
          && result == Result(FirstResponse(s.taken), Some(Joined(Errors(s.taken)))))
    || (|s.senders| == 0 && result == Result(None, Some(NoResolver)))
    || (s.ended.Some? && AllFailed(s.taken) && result == Result(FirstResponse(s.taken), s.ended))
  }

  lemma CountKept<R>(s: Race<R>, a: Action<R>)
    requires CountInv(s) && Enabled(s, a)
    ensures CountInv(Apply(s, a))
  {
    match a {
      case Finish(i, result) => SentCountUpdate(s.senders, i, Ready(Normalize(result)));
      case Send(i) =>
        SentCountUpdate(s.senders, i, Sent(s.senders[i].result));
        assert s.sent + [s.senders[i].result] == s.taken + (s.channel + [s.senders[i].result]);
      case Take => assert s.taken + s.channel == s.taken + [s.channel[0]] + s.channel[1..];
      case _ =>
    }
  }

  lemma MakersKept<R>(s: Race<R>, a: Action<R>)
    requires MakersInv(s) && Enabled(s, a)
    ensures MakersInv(Apply(s, a))
  {
  }

  lemma FlowKept<R>(s: Race<R>, a: Action<R>)
    requires FlowInv(s) && Enabled(s, a)
    ensures FlowInv(Apply(s, a))
  {
    CountKept(s, a);
    MakersKept(s, a);
  }

  lemma CollectKept<R>(s: Race<R>, a: Action<R>)
    requires CollectInv(s) && Enabled(s, a)
    ensures CollectInv(Apply(s, a))
  {
    if a.Take? {
      var t := Apply(s, a);
      assert t.taken[..|t.taken| - 1] == s.taken;
    }
  }

  lemma {:induction false} Reachable<R>(s: Race<R>, run: seq<Action<R>>)
    requires FlowInv(s) && CollectInv(s) && Possible(s, run)
    ensures FlowInv(Exec(s, run)) && CollectInv(Exec(s, run))
    ensures |Exec(s, run).senders| == |s.senders|
    decreases |run|
  {
    if run != [] {
      FlowKept(s, run[0]);
      CollectKept(s, run[0]);
      Reachable(Apply(s, run[0]), run[1..]);
    }
  }

  lemma ReachedInv<R>(n: nat, context: Option<Error>, run: seq<Action<R>>)
    requires Possible(Start(n, context), run)
    ensures var s := Exec(Start(n, context), run);
      FlowInv(s) && CollectInv(s) && |s.senders| == (if context.None? then n else 0)
  {
    NoneSent(Start<R>(n, context).senders);
    Reachable(Start(n, context), run);
  }

  /** No sender is ever blocked: whatever the collector did, a ready sender finds room in the channel. */
  lemma SendersNeverBlock<R>(n: nat, context: Option<Error>, run: seq<Action<R>>, i: nat)
    requires Possible(Start(n, context), run)
    ensures var s := Exec(Start(n, context), run);
            |s.channel| <= s.capacity <= n && (i < |s.senders| && s.senders[i].Ready? ==> Enabled(s, Send(i)))
  {
    ReachedInv(n, context, run);
    var s := Exec(Start(n, context), run);
    if i < |s.senders| && s.senders[i].Ready? { SentCountUpdate(s.senders, i, Sent(s.senders[i].result)); }
  }

  /** Nor is the collector: once every sender has sent, it can take a result or is complete. */
  lemma CollectorNeverStuck<R>(n: nat, context: Option<Error>, run: seq<Action<R>>)
    requires Possible(Start(n, context), run)
    requires var s := Exec(Start(n, context), run); forall i: nat | i < |s.senders| :: s.senders[i].Sent?
    ensures var s := Exec(Start(n, context), run); s.collector.Collecting? && |s.senders| > 0 ==>
        Enabled(s, Take) || Enabled(s, Complete)
  {
    ReachedInv(n, context, run);
    AllSent(Exec(Start(n, context), run).senders);
  }

  lemma {:induction false} AllSent<R>(senders: seq<Sender<R>>)
    requires forall i: nat | i < |senders| :: senders[i].Sent?
    ensures SentCount(senders) == |senders|
  {
    if senders != [] { AllSent(senders[1..]); }
  }

  /**
   * The result of a finished race, in any interleaving; a success is what one of the senders produced, with a response,
   * and an all-failed result joins exactly one error for each sender.
   */
  lemma RaceResult<R>(n: nat, context: Option<Error>, run: seq<Action<R>>)
    requires Possible(Start(n, context), run) && Exec(Start(n, context), run).collector.Done?
    ensures var s := Exec(Start(n, context), run);
      && |s.senders| == (if context.None? then n else 0)
      && Outcome(s, s.collector.result) && ResultsMade(s, s.collector.result)
      && (AllFailed(s.taken) ==> |Errors(s.taken)| == |s.taken|)
  {
    hide Exec, Possible, Outcome, Errors, AllFailed;
    ReachedInv(n, context, run);
    var s := Exec(Start(n, context), run);
    ResultsAreMade(s);
    if AllFailed(s.taken) { ErrorsAll(s.taken); }
  }

  /** Each result taken was made by a sender of its own, and so was a success returned. */
  ghost predicate ResultsMade<R>(s: Race<R>, result: Result<R>) {
    && |s.taken| <= |s.makers|
    && (forall k: nat | k < |s.taken| :: s.makers[k] < |s.senders| && s.senders[s.makers[k]] == Sent(s.taken[k]))
    && (forall j: nat, k: nat | j < k < |s.makers| :: s.makers[j] != s.makers[k])
    && (result.err.None? ==>
          result.response.Some? && exists i: nat :: i < |s.senders| && s.senders[i] == Sent(result))
  }

  lemma ResultsAreMade<R>(s: Race<R>)
    requires FlowInv(s) && CollectInv(s) && s.collector.Done?
    ensures ResultsMade(s, s.collector.result)
  {
    hide Errors, FirstResponse, AllFailed;
    assert forall k: nat | k < |s.taken| :: s.sent[k] == s.taken[k];
    if s.collector.result.err.None? {
      assert s.senders[s.makers[|s.taken| - 1]] == Sent(s.collector.result);
    }
  }

  /** The ways a race ends, one by one: refused, a first success, all failed, or the context's end. */
  lemma OutcomeExactly<R>(n: nat, context: Option<Error>, run: seq<Action<R>>)
    requires Possible(Start(n, context), run) && Exec(Start(n, context), run).collector.Done?
    ensures var s := Exec(Start(n, context), run);
      var result := s.collector.result;
      match result.err
      case None => |s.taken| > 0 && result == s.taken[|s.taken| - 1] && AllFailed(s.taken[..|s.taken| - 1])
      case Some(err) =>
        && AllFailed(s.taken)
        && (result.response.None? ==> forall k: nat | k < |s.taken| :: s.taken[k].response.None?)
        && (result.response.Some? ==> exists k: nat :: k < |s.taken| && Responds(s.taken, k, result.response))
        && (s.ended != Some(err) ==> |s.taken| == |s.senders| && (err == NoResolver || Joins(s.taken, err)))
  {
    hide Exec, Possible;
    ReachedInv(n, context, run);
    var s := Exec(Start(n, context), run);
    FirstResponseIsEarliest(s.taken);
    if AllFailed(s.taken) { ErrorsAll(s.taken); }
    if s.collector.result.err.Some? && s.collector.result.response.Some? {
      var k: nat :| k < |s.taken| && Earliest(s.taken, k);
      assert Responds(s.taken, k, s.collector.result.response);
    }
  }

  /** Result k is the first with a response. */
  ghost predicate Responds<R>(taken: seq<Result<R>>, k: nat, response: Option<R>)
    requires k < |taken|
  {
    taken[k].response == response && forall j: nat | j < k :: taken[j].response.None?
  }

  /** The error joins those of all results, in order. */
  ghost predicate Joins<R>(taken: seq<Result<R>>, err: Error) {
    && err.Joined? && |err.errors| == |taken|
    && forall k: nat | k < |taken| :: taken[k].err == Some(err.errors[k])
  }

  lemma {:induction false} ErrorsAll<R>(taken: seq<Result<R>>)
    requires AllFailed(taken)
    ensures |Errors(taken)| == |taken| && forall k: nat | k < |taken| :: taken[k].err == Some(Errors(taken)[k])
  {
    if taken != [] {
      var before := taken[..|taken| - 1];
      assert forall k: nat | k < |before| :: before[k] == taken[k];
      ErrorsAll(before);
    }
  }

  ghost predicate Earliest<R>(taken: seq<Result<R>>, k: nat)
    requires k < |taken|
  {
    taken[k].response == FirstResponse(taken) && forall j: nat | j < k :: taken[j].response.None?
  }

  /** The response kept from failures is that of the earliest result that has one. */
  lemma {:induction false} FirstResponseIsEarliest<R>(taken: seq<Result<R>>)
    ensures FirstResponse(taken).None? <==> forall k: nat | k < |taken| :: taken[k].response.None?
    ensures FirstResponse(taken).Some? ==> exists k: nat :: k < |taken| && Earliest(taken, k)
  {
    if taken != [] {
      var n := |taken| - 1;
      var before := taken[..n];
      assert forall k: nat | k < n :: before[k] == taken[k];
      FirstResponseIsEarliest(before);
      if FirstResponse(before).Some? {
        var k: nat :| k < |before| && Earliest(before, k);
        assert Earliest(taken, k);
      } else if taken[n].response.Some? {
        assert Earliest(taken, n);
      }
    }
  }
}
