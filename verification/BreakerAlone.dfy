/** A lookup that nobody disturbs takes the machine of atomic steps through exactly the visits of the serial breaker. */
module BreakerAlone {
  import opened Breaker
  import opened BreakerMachine

  function Snap(s: System): Snapshot {
    Snapshot(s.status, s.changedAt, s.failures, s.successes)
  }

  /** Only lookup t moves, and time passes. */
  predicate Alone(run: seq<Action>, t: nat) {
    forall i :: 0 <= i < |run| ==> run[i].Tick? || run[i].t == t
  }

  /** The lookup has been counted among those that reach the resolver. */
  predicate Counts(pc: Pc) {
    !(pc.Idle? || pc.Checking? || pc.Claiming? || pc.Reloading? || pc.StampingClaim? || pc.Asking?)
  }

  /** The breaker was `b` when the visit began, and the lookup goes through with view `view`. */
  predicate Through(b: Snapshot, s: System, view: Status, v: Visit) {
    && LetsThrough(s.cfg, b, v.checked)
    && view == (if b.status == Closed then Closed else HalfOpen)
    && s.status == view && (b.status != Open ==> s.changedAt == b.changedAt)
  }

  /** The outcome is in the counters. */
  predicate Recorded(b: Snapshot, s: System, v: Visit) {
    && s.failures == b.failures + (if v.ok then 0 else 1)
    && s.successes == b.successes + (if v.ok then 1 else 0)
  }

  /** How far the visit that began at `b` has come; `v` holds what is known of it. */
  predicate Midway(b: Snapshot, s: System, t: nat, v: Visit, views: nat)
    requires t < |s.threads|
  {
    var pc := s.threads[t];
    && |s.views| == views + (if Counts(pc) then 1 else 0)
    && match pc
       case Idle => false
       case Reloading => false
       case Checking => b.status == Open && Snap(s) == b
       case Claiming => b.status == Open && Snap(s) == b && LetsThrough(s.cfg, b, v.checked)
       case StampingClaim => b.status == Open && Snap(s) == b.(status := HalfOpen) && LetsThrough(s.cfg, b, v.checked)
       case Asking(view) => Through(b, s, view, v) && s.failures == b.failures && s.successes == b.successes
       case Asked(view) => Through(b, s, view, v) && s.failures == b.failures && s.successes == b.successes
       case Counted(view, ok) => Through(b, s, view, v) && v.ok == ok && Recorded(b, s, v)
       case Tripping => Through(b, s, Closed, v) && !v.ok && Recorded(b, s, v) && s.failures >= s.cfg.threshold
       case StampingSettled(to) =>
         && LetsThrough(s.cfg, b, v.checked) && Recorded(b, s, v) && s.status == to
         && if v.ok then to == Closed && b.status != Closed
            else to == Open && (b.status == Closed ==> s.failures >= s.cfg.threshold)
       case ResettingFailures =>
         LetsThrough(s.cfg, b, v.checked) && v.ok && b.status != Closed && s.status == Closed
             && s.changedAt == v.finished
       case ResettingSuccesses =>
         && LetsThrough(s.cfg, b, v.checked) && v.ok && b.status != Closed && s.status == Closed
         && s.changedAt == v.finished && s.failures == 0
  }

  /** The visit is over, or has come further. */
  predicate Onwards(b: Snapshot, s: System, t: nat, v: Visit, views: nat)
    requires t < |s.threads|
  {
    if s.threads[t].Idle? then
      Snap(s) == Visited(s.cfg, b, v) && |s.views| == views + (if LetsThrough(s.cfg, b, v.checked) then 1 else 0)
    else
      Midway(b, s, t, v, views)
  }

  lemma Begins(s: System, t: nat, v: Visit) returns (w: Visit)
    requires t < |s.threads| && s.threads[t].Idle?
    ensures Onwards(Snap(s), Apply(s, Load(t)), t, w, |s.views|) && !Apply(s, Load(t)).threads[t].Idle?
  {
    w := v.(checked := s.now);
  }

  lemma Continues(b: Snapshot, s: System, t: nat, a: Action, v: Visit, views: nat) returns (w: Visit)
    requires t < |s.threads| && Midway(b, s, t, v, views) && Enabled(s, a) && (a.Tick? || a.t == t)
    ensures t < |Apply(s, a).threads| && Onwards(b, Apply(s, a), t, w, views)
  {
    w := match a
      case Check(_) => v.(checked := s.now)
      case StampClaim(_) => v.(claimed := s.now)
      case Reply(_, ok) => v.(ok := ok)
      case StampSettled(_) => v.(finished := s.now)
      case _ => v;
  }

  /** From within a visit, the rest of an undisturbed run is that visit and further ones. */
  lemma {:induction false} RestOfRun(b: Snapshot, s: System, t: nat, v: Visit, views: nat, run: seq<Action>)
    returns (visits: seq<Visit>)
    requires t < |s.threads| && Possible(s, run) && Alone(run, t)
    requires if s.threads[t].Idle? then b == Snap(s) && views == |s.views| else Midway(b, s, t, v, views)
    requires t < |Exec(s, run).threads| && Exec(s, run).threads[t].Idle?
    ensures Snap(Exec(s, run)) == Run(s.cfg, b, visits)
    ensures |Exec(s, run).views| == views + Calls(s.cfg, b, visits)
    decreases |run|
  {
    if run == [] {
      visits := [];
    } else {
      var a, rest := run[0], run[1..];
      var next := Apply(s, a);
      assert run[0].Tick? || run[0].t == t;
      forall i | 0 <= i < |rest| ensures rest[i].Tick? || rest[i].t == t { assert rest[i] == run[i + 1]; }
      SameConfig(s, a);
      if s.threads[t].Idle? && a.Tick? {
        visits := RestOfRun(b, next, t, v, views, rest);
      } else {
        var w;
        if s.threads[t].Idle? { w := Begins(s, t, v); } else { w := Continues(b, s, t, a, v, views); }
        if next.threads[t].Idle? {
          var later := RestOfRun(Snap(next), next, t, w, |next.views|, rest);
          OneVisit(s.cfg, b, w);
          RunSplits(s.cfg, b, [w], later);
          visits := [w] + later;
        } else {
          visits := RestOfRun(b, next, t, w, views, rest);
        }
      }
    }
  }

  lemma SameConfig(s: System, a: Action)
    requires Enabled(s, a)
    ensures Apply(s, a).cfg == s.cfg && |Apply(s, a).threads| == |s.threads|
  {
  }

  lemma OneVisit(cfg: Config, b: Snapshot, v: Visit)
    ensures Run(cfg, b, [v]) == Visited(cfg, b, v)
    ensures Calls(cfg, b, [v]) == if LetsThrough(cfg, b, v.checked) then 1 else 0
  {
    assert [v][..0] == [];
  }

  /** From any state, a lookup alone from idle to idle makes some visits to the serial breaker, and its calls. */
  lemma AloneIsSerial(s: System, t: nat, run: seq<Action>) returns (visits: seq<Visit>)
    requires t < |s.threads| && s.threads[t].Idle? && Possible(s, run) && Alone(run, t)
    requires t < |Exec(s, run).threads| && Exec(s, run).threads[t].Idle?
    ensures Snap(Exec(s, run)) == Run(s.cfg, Snap(s), visits)
    ensures |Exec(s, run).views| == |s.views| + Calls(s.cfg, Snap(s), visits)
  {
    visits := RestOfRun(Snap(s), s, t, Visit(0, 0, 0, true), |s.views|, run);
  }
}
