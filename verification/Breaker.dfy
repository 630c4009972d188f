/** The circuit breaker as one caller at a time drives it, and what its history of outcomes says about it. */
module Breaker {
  import opened Lookups
  import Cyclic

  datatype Status = Closed | Open | HalfOpen

  datatype Config = Config(threshold: nat, cooling: int)

  datatype Snapshot = Snapshot(status: Status, changedAt: int, failures: nat, successes: nat)

  /**
   * One lookup: the clock when it looks, when it claims the probe and when it is done, and how the resolver
   * answers.
   */
  datatype Visit = Visit(checked: int, claimed: int, finished: int, ok: bool)

  /** Whether a lookup that looks at `now` is let through to the resolver. */
  predicate LetsThrough(cfg: Config, b: Snapshot, now: int) {
    b.status != Open || now - b.changedAt >= cfg.cooling
  }

  /** The breaker after one undisturbed lookup. */
  function Visited(cfg: Config, b: Snapshot, v: Visit): Snapshot {
    if !LetsThrough(cfg, b, v.checked) then b
    else if b.status == Closed then
      if v.ok then Snapshot(Closed, b.changedAt, 0, b.successes + 1)
      else if b.failures + 1 >= cfg.threshold then Snapshot(Open, v.finished, b.failures + 1, b.successes)
      else Snapshot(Closed, b.changedAt, b.failures + 1, b.successes)
    else if v.ok then Snapshot(Closed, v.finished, 0, 0)
    else Snapshot(Open, v.finished, b.failures + 1, b.successes)
  }

  function Run(cfg: Config, b: Snapshot, visits: seq<Visit>): Snapshot {
    if visits == [] then b else Visited(cfg, Run(cfg, b, visits[..|visits| - 1]), visits[|visits| - 1])
  }

  /** The visits of a run that reach the resolver. */
  function Calls(cfg: Config, b: Snapshot, visits: seq<Visit>): nat {
    if visits == [] then 0
    else
      var before, v := visits[..|visits| - 1], visits[|visits| - 1];
      Calls(cfg, b, before) + if LetsThrough(cfg, Run(cfg, b, before), v.checked) then 1 else 0
  }

  /** The resolver behind a breaker: it answers anything, counts the questions and keeps its last answer. */
  class Server<R(0)> {
    var asked: nat
    var answer: Result<R>

    method Lookup() returns (r: Result<R>)
      modifies this
      ensures asked == old(asked) + 1 && r == answer
    {
      asked := asked + 1;
      answer := *;
      r := answer;
    }
  }

  class Metrics {
    var success: nat
    var failure: nat

    constructor ()
      ensures success == 0 && failure == 0
    {
      success, failure := 0, 0;
    }

    /** Passes the normalized answer on and counts it on one of the two sides. */
    method Lookup<R(0)>(server: Server<R>) returns (result: Result<R>)
      modifies this, server
      ensures server.asked == old(server.asked) + 1 && result == Normalize(server.answer)
      ensures failure == old(failure) + (if result.err.Some? then 1 else 0)
      ensures success == old(success) + (if result.err.Some? then 0 else 1)
    {
      result := server.Lookup();
      result := Normalize(result);
      if result.err.Some? { failure := failure + 1; } else { success := success + 1; }
    }
  }

  class CircuitBreaker {
    const cfg: Config
    const metrics: Metrics
    var status: Status
    var changedAt: int

    ghost function Value(): Snapshot
      reads this, metrics
    {
      Snapshot(status, changedAt, metrics.failure, metrics.success)
    }

    constructor (cfg: Config, now: int)
      ensures this.cfg == cfg && fresh(metrics)
      ensures Value() == Snapshot(Closed, now, 0, 0)
    {
      this.cfg, status, changedAt := cfg, Closed, now;
      metrics := new Metrics();
    }

    method CompareAndSwap(from: Status, to: Status, now: int) returns (swapped: bool)
      modifies this
      ensures swapped == (old(status) == from)
      ensures status == (if swapped then to else old(status)) && changedAt == (if swapped then now else old(changedAt))
    {
      swapped := status == from;
      if swapped { status, changedAt := to, now; }
    }

    /** Moves the state if it still is `from`; closing forgets the counts. */
    method ChangeState(from: Status, to: Status, now: int)
      modifies this, metrics
      ensures old(status) != from ==> Value() == old(Value())
      ensures old(status) == from && to == Closed ==> Value() == Snapshot(Closed, now, 0, 0)
      ensures old(status) == from && to != Closed ==> Value() == old(Value()).(status := to, changedAt := now)
    {
      var swapped := CompareAndSwap(from, to, now);
      if swapped && to == Closed {
        metrics.failure, metrics.success := 0, 0;
      }
    }

    method Lookup<R(0)>(server: Server<R>, checked: int, claimed: int, finished: int) returns (result: Result<R>)
      modifies this, metrics, server
      ensures server.asked == old(server.asked) + (if LetsThrough(cfg, old(Value()), checked) then 1 else 0)
      ensures Value() == Visited(cfg, old(Value()), Visit(checked, claimed, finished, result.err.None?))
      ensures LetsThrough(cfg, old(Value()), checked) ==> result == Normalize(server.answer)
      ensures !LetsThrough(cfg, old(Value()), checked) ==>
                result == Result(None, Some(CircuitOpen)) && server.answer == old(server.answer)
    {
      var view := status;
      if view == Open {
        if checked - changedAt < cfg.cooling { return Result(None, Some(CircuitOpen)); }
        var swapped := CompareAndSwap(Open, HalfOpen, claimed);
        view := if swapped then HalfOpen else status;
      }
      if view == Open { return Result(None, Some(CircuitOpen)); }
      result := metrics.Lookup(server);
      if result.err.Some? {
        if view == HalfOpen {
          ChangeState(HalfOpen, Open, finished);
        } else if metrics.failure >= cfg.threshold {
          ChangeState(Closed, Open, finished);
        }
      } else if view == HalfOpen {
        ChangeState(HalfOpen, Closed, finished);
      } else {
        metrics.failure := 0;
      }
    }

    /** A balancer is told yes exactly when a lookup at this moment would be let through. */
    method Accept(now: int) returns (accepted: bool)
      ensures accepted <==> LetsThrough(cfg, Value(), now)
    {
      if status == Closed { return true; }
      if status == Open { return now - changedAt >= cfg.cooling; }
      return true;
    }
  }

  // ---- Histories

  function Threshold(cfg: Config): nat {
    if cfg.threshold > 1 then cfg.threshold else 1
  }

  /** The failures since the last success of a history. */
  function Trailing(visits: seq<Visit>): (n: nat)
    ensures n <= |visits|
  {
    if visits == [] || visits[|visits| - 1].ok then 0 else Trailing(visits[..|visits| - 1]) + 1
  }

  ghost predicate Timely(visits: seq<Visit>) {
    && (forall i :: 0 <= i < |visits| ==> visits[i].checked <= visits[i].claimed <= visits[i].finished)
    && (forall i, j :: 0 <= i < j < |visits| ==> visits[i].finished <= visits[j].checked)
  }

  /**
   * A breaker that has just closed stays closed, counting the consecutive failures, and every visit reaches the
   * resolver, until exactly the max(threshold, 1)-th of them in a row, which opens it.
   */
  lemma {:induction false} OpensOnStreak(cfg: Config, b: Snapshot, visits: seq<Visit>)
    requires b.status == Closed && b.failures == 0
    requires forall j :: 0 <= j < |visits| ==> Trailing(visits[..j]) < Threshold(cfg)
    ensures Calls(cfg, b, visits) == |visits|
    ensures var end := Run(cfg, b, visits);
            if Trailing(visits) < Threshold(cfg) then
              end.status == Closed && end.failures == Trailing(visits) && end.changedAt == b.changedAt
            else
              end.status == Open && Trailing(visits) == Threshold(cfg) && end.changedAt == visits[|visits| - 1].finished
  {
    if visits != [] {
      var before := visits[..|visits| - 1];
      forall j | 0 <= j < |before| ensures Trailing(before[..j]) < Threshold(cfg) {
        assert before[..j] == visits[..j];
      }
      OpensOnStreak(cfg, b, before);
    }
  }

  /** Conversely a breaker opened since it closed only through such a streak. */
  lemma {:induction false} OpenedByStreak(cfg: Config, b: Snapshot, visits: seq<Visit>)
    requires b.status == Closed && b.failures == 0 && Run(cfg, b, visits).status == Open
    ensures exists j :: 0 < j <= |visits| && Trailing(visits[..j]) == Threshold(cfg)
  {
    if forall j :: 0 <= j < |visits| ==> Trailing(visits[..j]) < Threshold(cfg) {
      OpensOnStreak(cfg, b, visits);
      assert visits[..|visits|] == visits;
    } else {
      var j := FirstStreak(cfg, visits, |visits|);
    }
  }

  lemma {:induction false} FirstStreak(cfg: Config, visits: seq<Visit>, n: nat) returns (j: nat)
    requires n <= |visits| && exists i :: 0 <= i < n && Trailing(visits[..i]) >= Threshold(cfg)
    ensures 0 < j < n && Trailing(visits[..j]) == Threshold(cfg)
  {
    j := n - 1;
    if exists i :: 0 <= i < n - 1 && Trailing(visits[..i]) >= Threshold(cfg) {
      j := FirstStreak(cfg, visits, n - 1);
    } else {
      assert visits[..j][..j - 1] == visits[..j - 1];
    }
  }

  /** The breaker as its documentation describes it: working with a streak of failures, or resting since a moment. */
  datatype Phase = Working(streak: nat) | Resting(since: int)

  function PhaseAfter(cfg: Config, p: Phase, v: Visit): Phase {
    match p
    case Working(streak) =>
      if v.ok then Working(0) else if streak + 1 >= Threshold(cfg) then Resting(v.finished) else Working(streak + 1)
    case Resting(since) =>
      if v.checked - since < cfg.cooling then p else if v.ok then Working(0) else Resting(v.finished)
  }

  function PhaseRun(cfg: Config, p: Phase, visits: seq<Visit>): Phase {
    if visits == [] then p else PhaseAfter(cfg, PhaseRun(cfg, p, visits[..|visits| - 1]), visits[|visits| - 1])
  }

  ghost predicate Shows(cfg: Config, b: Snapshot, p: Phase) {
    match p
    case Working(streak) => b.status == Closed && b.failures == streak < Threshold(cfg)
    case Resting(since) => b.status == Open && b.changedAt == since
  }

  /** Over any history the breaker is that simple machine; between lookups it is never half open. */
  lemma {:induction false} SerialRefines(cfg: Config, b: Snapshot, p: Phase, visits: seq<Visit>)
    requires Shows(cfg, b, p)
    ensures Shows(cfg, Run(cfg, b, visits), PhaseRun(cfg, p, visits))
    ensures Run(cfg, b, visits).status != HalfOpen
  {
    if visits != [] { SerialRefines(cfg, b, p, visits[..|visits| - 1]); }
  }

  ghost predicate AlwaysFails(visits: seq<Visit>) {
    forall i :: 0 <= i < |visits| ==> !visits[i].ok
  }

  /** While a breaker rests, failing probes are a cooling time apart. */
  lemma {:induction false} ProbesBound(cfg: Config, b: Snapshot, visits: seq<Visit>, until: int)
    requires cfg.cooling > 0 && b.status == Open && AlwaysFails(visits) && Timely(visits)
    requires forall i :: 0 <= i < |visits| ==> b.changedAt <= visits[i].checked && visits[i].finished <= until
    requires b.changedAt <= until
    ensures var end := Run(cfg, b, visits);
            end.status == Open && end.changedAt <= until
            && b.changedAt + Calls(cfg, b, visits) * cfg.cooling <= end.changedAt
            && (visits != [] ==> end.changedAt <= visits[|visits| - 1].finished)
  {
    if visits != [] {
      var before := visits[..|visits| - 1];
      var v := visits[|visits| - 1];
      assert forall i :: 0 <= i < |before| ==> before[i] == visits[i];
      ProbesBound(cfg, b, before, if before == [] then b.changedAt else before[|before| - 1].finished);
      CallsTimes(Calls(cfg, b, before), cfg.cooling);
    }
  }

  lemma CallsTimes(calls: nat, cooling: int)
    ensures (calls + 1) * cooling == calls * cooling + cooling
  {
  }

  /**
   * An always failing resolver is asked at most max(threshold, 1) + floor(w / cooling) times, w being the time
   * since it opened.
   */
  lemma FailingBound(cfg: Config, b: Snapshot, visits: seq<Visit>, until: int)
    requires cfg.cooling > 0 && b.status == Closed && b.failures == 0
    requires AlwaysFails(visits) && Timely(visits) && |visits| >= Threshold(cfg)
    requires forall i :: 0 <= i < |visits| ==> visits[i].finished <= until
    ensures var openedAt := visits[Threshold(cfg) - 1].finished;
            Calls(cfg, b, visits) <= Threshold(cfg) + (until - openedAt) / cfg.cooling
  {
    hide Run, Calls, Visited, LetsThrough, Trailing, AlwaysFails, Timely;
    var t := Threshold(cfg);
    var first, rest := visits[..t], visits[t..];
    FailingParts(visits, t, until);
    AllTrailing(first);
    forall j | 0 <= j < t ensures Trailing(first[..j]) < t {
      assert first[..j] == visits[..j];
      FailingParts(visits, j, until);
      AllTrailing(first[..j]);
    }
    OpensOnStreak(cfg, b, first);
    RunSplits(cfg, b, first, rest);
    assert first + rest == visits;
    RestingBound(cfg, Run(cfg, b, first), rest, until);
  }

  lemma FailingParts(visits: seq<Visit>, t: nat, until: int)
    requires AlwaysFails(visits) && Timely(visits) && t <= |visits|
    requires forall i :: 0 <= i < |visits| ==> visits[i].finished <= until
    ensures AlwaysFails(visits[..t]) && AlwaysFails(visits[t..]) && Timely(visits[t..])
    ensures t > 0 ==> forall i :: 0 <= i < |visits[t..]| ==>
        visits[t - 1].finished <= visits[t..][i].checked && visits[t..][i].finished <= until
  {
  }

  lemma RestingBound(cfg: Config, open: Snapshot, rest: seq<Visit>, until: int)
    requires cfg.cooling > 0 && open.status == Open && AlwaysFails(rest) && Timely(rest)
    requires forall i :: 0 <= i < |rest| ==> open.changedAt <= rest[i].checked && rest[i].finished <= until
    requires open.changedAt <= until
    ensures Calls(cfg, open, rest) <= (until - open.changedAt) / cfg.cooling
  {
    ProbesBound(cfg, open, rest, until);
    ProbesFit(Calls(cfg, open, rest), cfg.cooling, until - open.changedAt);
  }

  lemma {:induction false} AllTrailing(visits: seq<Visit>)
    requires AlwaysFails(visits)
    ensures Trailing(visits) == |visits|
  {
    if visits != [] { AllTrailing(visits[..|visits| - 1]); }
  }

  lemma {:induction false} RunSplits(cfg: Config, b: Snapshot, first: seq<Visit>, rest: seq<Visit>)
    ensures Run(cfg, b, first + rest) == Run(cfg, Run(cfg, b, first), rest)
    ensures Calls(cfg, b, first + rest) == Calls(cfg, b, first) + Calls(cfg, Run(cfg, b, first), rest)
  {
    if rest == [] {
      assert first + rest == first;
    } else {
      var n := |rest| - 1;
      RunSplits(cfg, b, first, rest[..n]);
      assert (first + rest)[..|first + rest| - 1] == first + rest[..n];
    }
  }

  lemma ProbesFit(calls: nat, cooling: int, w: int)
    requires cooling > 0 && calls * cooling <= w
    ensures calls <= w / cooling
  {
    Cyclic.DivMod(calls, 0, cooling);
    Cyclic.QuotientMonotone(calls * cooling, w, cooling);
  }
}
