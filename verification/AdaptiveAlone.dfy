/** A lookup that nobody disturbs takes the machine of atomic steps through exactly what the serial pool promises. */
module AdaptiveAlone {
  import opened Lookups
  import opened Dns
  import opened AdaptiveRate
  import opened AdaptiveUpstreams
  import opened AdaptiveMachine
  import Cyclic
  import Serial = AdaptivePool

  /** Only lookup c moves, and time passes. */
  predicate Alone(run: seq<Action>, c: nat) {
    forall i :: 0 <= i < |run| ==> run[i].Tick? || (run[i].c == c && !run[i].Enter?)
  }

  // The machine leaves answers open; these stand for a good and for a failed one.

  const SUCCESS: Result<Reply> := Result(Some(Reply(Head(0, false, false, []), [], [], [])), None)
  const FAULT: Result<Reply> := Result(None, Some(NoResponse))

  function Faults(n: nat): seq<Error> {
    seq(n, _ => NoResponse)
  }

  /** How an ending of the machine shows in a result. */
  predicate Shows(ending: Ending, result: Result<Reply>) {
    match ending
    case Answered => result.err.None?
    case AllFailed(n) => result.err.Some? && result.err.value.Joined? && |result.err.value.errors| == n
    case ContextEnded => result.err in {Some(Canceled), Some(DeadlineExceeded)}
  }

  /** The attempts so far have all failed. */
  ghost predicate Trying(before: seq<State>, from: int, s: Pool, me: Caller, trail: seq<Serial.Attempt>, to: int)
    requires Serial.Runnable(s.o, before)
  {
    && Serial.Tried(s.o, before, s.ups, trail) && Serial.Orderly(trail, from, to) && to <= s.now
    && Serial.AllBad(trail, Faults(|trail|)) && Serial.LastResponse(trail) == None
    && Serial.Upstreams(trail) == me.called
  }

  /** One more upstream has been reserved. */
  ghost predicate InCall(before: seq<State>, from: int, s: Pool, me: Caller, u: nat, trail: seq<Serial.Attempt>,
      claimed: int)
    requires Serial.Runnable(s.o, before)
  {
    && |before| == |s.ups| && u < |before| && !Serial.AskedIn(trail, u) && before[u].rate > 0.0
    && s.ups[u] == Reserved(before[u], claimed)
    && Serial.Tried(s.o, before, s.ups[u := before[u]], trail) && Serial.Orderly(trail, from, claimed)
    && claimed <= s.now && Serial.AllBad(trail, Faults(|trail|)) && Serial.LastResponse(trail) == None
    && me.called == Serial.Upstreams(trail) + [u]
  }

  ghost predicate Midway(before: seq<State>, from: int, s: Pool, c: nat, trail: seq<Serial.Attempt>, claimed: int,
                         result: Result<Reply>)
    requires c < |s.callers|
  {
    var me := s.callers[c];
    && Serial.Runnable(s.o, before)
    && match me.pc
       case Returned(Some(ending)) =>
         && Serial.Tried(s.o, before, s.ups, trail) && Serial.Orderly(trail, from, s.now)
         && Serial.Ended(s.o, result, trail) && Shows(ending, result) && Serial.Upstreams(trail) == me.called
       case Returned(None) => false
       case Calling(u) => InCall(before, from, s, me, u, trail, claimed)
       case Scanning(now, _, _, _, _, _) => Trying(before, from, s, me, trail, now)
       case _ => Trying(before, from, s, me, trail, s.now)
  }

  lemma LaterToo(trail: seq<Serial.Attempt>, from: int, to: int, later: int)
    requires Serial.Orderly(trail, from, to) && to <= later
    ensures Serial.Orderly(trail, from, later)
  {
  }

  lemma AskedIsCalled(trail: seq<Serial.Attempt>, u: nat)
    ensures Serial.AskedIn(trail, u) ==> u in Serial.Upstreams(trail)
  {
    Serial.AskedIsUpstream(trail, u);
  }

  lemma Commits(before: seq<State>, from: int, s: Pool, c: nat, trail: seq<Serial.Attempt>, claimed: int,
      result: Result<Reply>)
    requires Inv(s) && Enabled(s, Commit(c)) && Midway(before, from, s, c, trail, claimed, result)
    ensures var t := Apply(s, Commit(c));
            c < |t.callers| && Midway(before, from, t, c, trail, s.callers[c].pc.now, result)
  {
    hide Serial.Effect, Serial.Orderly, Serial.AllBad, IntervalForQPS, Examine, Cyclic.Position, Cyclic.OffsetOf;
    var me := s.callers[c];
    var u := me.pc.scan.selected.value;
    SelectionIsLeast(s, c);
    assert CallerOk(s.o, me);
    AskedIsCalled(trail, u);
    assert before[u] in before;
    var t := Apply(s, Commit(c));
    assert t.ups[u := before[u]] == s.ups;
  }

  /** The end of a call, as an attempt of the serial trail. */
  function Closing(s: Pool, a: Action, u: nat, claimed: int): Serial.Attempt {
    if a.Answer? then Serial.Attempt(u, SUCCESS, Serial.Good, claimed, s.now)
    else if a.Cancel? then Serial.Attempt(u, FAULT, Serial.Dropped, claimed, s.now)
    else Serial.Attempt(u, FAULT, Serial.Bad, claimed, s.now)
  }

  function Conclusion(a: Action, n: nat): Result<Reply> {
    if a.Answer? then SUCCESS
    else Result(None, Some(if a.Cancel? then Canceled else if a.Expire? then DeadlineExceeded else Joined(Faults(n))))
  }

  lemma Concludes(o: Options, a: Action, trail: seq<Serial.Attempt>, t: Serial.Attempt)
    requires Serial.AllBad(trail, Faults(|trail|)) && (a.Answer? || a.Fault? || a.Expire? || a.Cancel?)
    requires t.answer == (if a.Answer? then SUCCESS else FAULT)
    requires t.verdict == if a.Answer? then Serial.Good else if a.Cancel? then Serial.Dropped else Serial.Bad
    requires a.Fault? ==> |trail| + 1 == o.maxAttempts
    ensures Serial.Ended(o, Conclusion(a, |trail| + 1), trail + [t])
    ensures a.Fault? ==> Serial.AllBad(trail + [t], Faults(|trail| + 1))
  {
    assert Serial.Failure(Normalize(SUCCESS)) == None && Serial.Failure(Normalize(FAULT)) == Some(NoResponse);
  }

  lemma OneMoreBad(trail: seq<Serial.Attempt>, t: Serial.Attempt)
    requires Serial.AllBad(trail, Faults(|trail|)) && t.answer == FAULT && t.verdict == Serial.Bad
    ensures Serial.AllBad(trail + [t], Faults(|trail| + 1)) && Serial.LastResponse(trail + [t]) == None
  {
    assert Serial.Failure(Normalize(FAULT)) == Some(NoResponse);
  }

  lemma Closes(before: seq<State>, from: int, s: Pool, c: nat, a: Action, trail: seq<Serial.Attempt>, claimed: int)
    returns (after: seq<Serial.Attempt>, result: Result<Reply>)
    requires Inv(s) && Enabled(s, a) && (a.Answer? || a.Fault? || a.Expire? || a.Cancel?) && a.c == c
    requires Midway(before, from, s, c, trail, claimed, FAULT)
    ensures var t := Apply(s, a); c < |t.callers| && Midway(before, from, t, c, after, claimed, result)
  {
    hide Serial.Tried, Serial.Ended, Serial.AllBad, Serial.AskedIn, IntervalForQPS, Raised, Lowered, Reserved;
    var me := s.callers[c];
    var u := me.pc.upstream;
    var mid, closing := s.ups[u := before[u]], Closing(s, a, u, claimed);
    Serial.TriedNext(s.o, before, mid, trail, closing);
    Serial.TrailNext(trail, closing);
    assert CallerOk(s.o, me);
    assert |trail| == me.attempt - 1;
    var t := Apply(s, a);
    assert t.ups == mid[u := Serial.Effect(s.o, before[u], closing)];
    after := trail + [closing];
    result := Conclusion(a, |trail| + 1);
    if a.Fault? && me.attempt < s.o.maxAttempts {
      OneMoreBad(trail, closing);
    } else {
      Concludes(s.o, a, trail, closing);
    }
  }

  lemma Continues(before: seq<State>, from: int, s: Pool, c: nat, a: Action, trail: seq<Serial.Attempt>, claimed: int,
                  result: Result<Reply>)
    returns (after: seq<Serial.Attempt>, claim: int, outcome: Result<Reply>)
    requires Inv(s) && Enabled(s, a) && (a.Tick? || (a.c == c && !a.Enter?)) && c < |s.callers|
    requires Midway(before, from, s, c, trail, claimed, result)
    ensures var t := Apply(s, a); c < |t.callers| && Midway(before, from, t, c, after, claim, outcome)
  {
    after, claim, outcome := trail, claimed, result;
    if a.Commit? {
      Commits(before, from, s, c, trail, claimed, result);
      claim := s.callers[c].pc.now;
    } else if a.Answer? || a.Fault? || a.Expire? || a.Cancel? {
      after, outcome := Closes(before, from, s, c, a, trail, claimed);
    } else {
      hide Serial.Tried, IntervalForQPS, Cyclic.Position, Examine, AvailableAt, Serial.AskedIn, Reserved;
      if a.QuitWaiting? { outcome := Result(None, Some(Canceled)); }
    }
  }

  lemma {:induction false} RestOfLookup(before: seq<State>, from: int, s: Pool, c: nat, run: seq<Action>,
                                        trail: seq<Serial.Attempt>, claimed: int, result: Result<Reply>)
    returns (after: seq<Serial.Attempt>, claim: int, outcome: Result<Reply>)
    requires Inv(s) && c < |s.callers| && Possible(s, run) && Alone(run, c)
    requires Midway(before, from, s, c, trail, claimed, result)
    ensures var t := Exec(s, run); c < |t.callers| && Midway(before, from, t, c, after, claim, outcome)
    decreases |run|
  {
    hide Midway, Apply, Enabled;
    after, claim, outcome := trail, claimed, result;
    if run != [] {
      assert run[0].Tick? || (run[0].c == c && !run[0].Enter?);
      forall i | 0 <= i < |run| - 1 ensures run[1..][i] == run[i + 1] {}
      after, claim, outcome := Continues(before, from, s, c, run[0], trail, claimed, result);
      InvKept(s, run[0]);
      after, claim, outcome := RestOfLookup(before, from, Apply(s, run[0]), c, run[1..], after, claim, outcome);
    }
  }

  /**
   * Undisturbed from its loop's first turn to its return, a lookup does to the upstreams, and ends, as the serial
   * one.
   */
  lemma AloneIsSerial(s: Pool, c: nat, run: seq<Action>) returns (trail: seq<Serial.Attempt>, result: Result<Reply>)
    requires Inv(s) && c < |s.callers| && s.callers[c].pc.AtHead? && s.callers[c].called == []
    requires Possible(s, run) && Alone(run, c)
    requires var t := Exec(s, run); c < |t.callers| && t.callers[c].pc.Returned?
    ensures Serial.Runnable(s.o, s.ups)
    ensures var t := Exec(s, run);
      && Serial.Tried(s.o, s.ups, t.ups, trail) && Serial.Orderly(trail, s.now, t.now)
      && Serial.Ended(s.o, result, trail) && Serial.Upstreams(trail) == t.callers[c].called
      && t.callers[c].pc.ending.Some? && Shows(t.callers[c].pc.ending.value, result)
  {
    NothingTriedYet(s, c);
    var claim;
    trail, claim, result := RestOfLookup(s.ups, s.now, s, c, run, [], 0, FAULT);
    Reachable(s, run);
  }

  lemma NothingTriedYet(s: Pool, c: nat)
    requires Inv(s) && c < |s.callers| && s.callers[c].pc.AtHead? && s.callers[c].called == []
    ensures Midway(s.ups, s.now, s, c, [], 0, FAULT)
  {
  }
}
