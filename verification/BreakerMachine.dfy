/**
 * The circuit breaker under every interleaving of any number of lookups. A step is one atomic access: a load, a
 * compare-and-swap, a counter update, or a read or write of the time stamp under its lock.
 */
module BreakerMachine {
  import opened Lookups
  import opened Breaker

  datatype Pc =
    | Idle
    | Checking
    | Claiming
    | Reloading
    | StampingClaim
    | Asking(view: Status)
    | Asked(view: Status)
    | Counted(view: Status, ok: bool)
    | Tripping
    | StampingSettled(to: Status)
    | ResettingFailures
    | ResettingSuccesses

  /** `winner` is the latest lookup to move Open to HalfOpen; `trail` and `views` are the history. */
  datatype System = System(
    cfg: Config, now: int, status: Status, changedAt: int, failures: nat, successes: nat,
    threads: seq<Pc>, winner: Option<nat>, trail: seq<Status>, views: seq<Status>)

  datatype Action =
    | Tick(passed: nat)
    | Load(t: nat)
    | Check(t: nat)
    | Claim(t: nat)
    | Reload(t: nat)
    | StampClaim(t: nat)
    | Ask(t: nat)
    | Reply(t: nat, ok: bool)
    | Settle(t: nat)
    | Trip(t: nat)
    | StampSettled(t: nat)
    | ResetFailures(t: nat)
    | ResetSuccesses(t: nat)

  predicate Enabled(s: System, a: Action) {
    a.Tick? || (a.t < |s.threads| &&
      var pc := s.threads[a.t];
      match a
      case Load(_) => pc.Idle?
      case Check(_) => pc.Checking?
      case Claim(_) => pc.Claiming?
      case Reload(_) => pc.Reloading?
      case StampClaim(_) => pc.StampingClaim?
      case Ask(_) => pc.Asking?
      case Reply(_, _) => pc.Asked?
      case Settle(_) => pc.Counted?
      case Trip(_) => pc.Tripping?
      case StampSettled(_) => pc.StampingSettled?
      case ResetFailures(_) => pc.ResettingFailures?
      case _ => pc.ResettingSuccesses?)
  }

  function Goto(s: System, t: nat, pc: Pc): System
    requires t < |s.threads|
  {
    s.(threads := s.threads[t := pc])
  }

  /** A compare-and-swap of the state word by thread t, and where it goes on in each case. */
  function Swap(s: System, t: nat, from: Status, to: Status, done: Pc, lost: Pc): System
    requires t < |s.threads|
  {
    if s.status == from then Goto(s, t, done).(status := to, trail := s.trail + [to]) else Goto(s, t, lost)
  }

  function Apply(s: System, a: Action): System
    requires Enabled(s, a)
  {
    match a
    case Tick(passed) => s.(now := s.now + passed)
    case Load(t) => Goto(s, t, if s.status == Open then Checking else Asking(s.status))
    case Check(t) => Goto(s, t, if s.now - s.changedAt >= s.cfg.cooling then Claiming else Idle)
    case Claim(t) => Swap(s, t, Open, HalfOpen, StampingClaim, Reloading)
        .(winner := if s.status == Open then Some(t) else s.winner)
    case Reload(t) => Goto(s, t, if s.status == Open then Idle else Asking(s.status))
    case StampClaim(t) => Goto(s, t, Asking(HalfOpen)).(changedAt := s.now)
    case Ask(t) => Goto(s, t, Asked(s.threads[t].view)).(views := s.views + [s.threads[t].view])
    case Reply(t, ok) =>
      Goto(s, t, Counted(s.threads[t].view, ok))
      .(failures := s.failures + (if ok then 0 else 1), successes := s.successes + (if ok then 1 else 0))
    case Settle(t) =>
      var view, ok := s.threads[t].view, s.threads[t].ok;
      if !ok && view == HalfOpen then Swap(s, t, HalfOpen, Open, StampingSettled(Open), Idle)
      else if !ok then Goto(s, t, if s.failures >= s.cfg.threshold then Tripping else Idle)
      else if view == HalfOpen then Swap(s, t, HalfOpen, Closed, StampingSettled(Closed), Idle)
      else if view == Closed then Goto(s, t, Idle).(failures := 0)
      else Goto(s, t, Idle)
    case Trip(t) => Swap(s, t, Closed, Open, StampingSettled(Open), Idle)
    case StampSettled(t) => Goto(s, t, if s.threads[t].to == Closed then ResettingFailures else Idle)
        .(changedAt := s.now)
    case ResetFailures(t) => Goto(s, t, ResettingSuccesses).(failures := 0)
    case ResetSuccesses(t) => Goto(s, t, Idle).(successes := 0)
  }

  predicate Possible(s: System, run: seq<Action>)
    decreases |run|
  {
    run == [] || (Enabled(s, run[0]) && Possible(Apply(s, run[0]), run[1..]))
  }

  function Exec(s: System, run: seq<Action>): System
    requires Possible(s, run)
    decreases |run|
  {
    if run == [] then s else Exec(Apply(s, run[0]), run[1..])
  }

  function Start(cfg: Config, now: int, lookups: nat): System {
    System(cfg, now, Closed, now, 0, 0, seq(lookups, _ => Idle), None, [Closed], [])
  }

  /** A lookup that runs as a probe: it will settle the half-open state. */
  predicate Probing(pc: Pc) {
    pc.StampingClaim? || pc == Asking(HalfOpen) || pc == Asked(HalfOpen) || (pc.Counted? && pc.view == HalfOpen)
  }

  predicate Edge(from: Status, to: Status) {
    (from, to) in {(Closed, Open), (Open, HalfOpen), (HalfOpen, Open), (HalfOpen, Closed)}
  }

  ghost predicate ProbePending(s: System) {
    s.status == HalfOpen ==> s.winner.Some? && s.winner.value < |s.threads| && Probing(s.threads[s.winner.value])
  }

  ghost predicate NoOpenView(s: System) {
    && (forall t: nat | t < |s.threads| :: ViewOk(s.threads[t]))
    && (forall i :: 0 <= i < |s.views| ==> s.views[i] != Open)
  }

  predicate ViewOk(pc: Pc) {
    pc.Asking? || pc.Asked? || pc.Counted? ==> pc.view != Open
  }

  ghost predicate TrailOk(s: System) {
    && |s.trail| > 0 && s.trail[|s.trail| - 1] == s.status
    && forall i :: 0 <= i < |s.trail| - 1 ==> Edge(s.trail[i], s.trail[i + 1])
  }

  ghost predicate Inv(s: System) {
    ProbePending(s) && NoOpenView(s) && TrailOk(s)
  }

  lemma ProbeKept(s: System, a: Action)
    requires ProbePending(s) && Enabled(s, a)
    ensures ProbePending(Apply(s, a))
  {
  }

  lemma ViewsKept(s: System, a: Action)
    requires NoOpenView(s) && Enabled(s, a)
    ensures NoOpenView(Apply(s, a))
  {
    if !a.Tick? { assert ViewOk(s.threads[a.t]); }
  }

  lemma TrailKept(s: System, a: Action)
    requires TrailOk(s) && NoOpenView(s) && Enabled(s, a)
    ensures TrailOk(Apply(s, a))
  {
  }

  lemma InvKept(s: System, a: Action)
    requires Inv(s) && Enabled(s, a)
    ensures Inv(Apply(s, a))
  {
    hide ProbePending, NoOpenView, TrailOk, Apply;
    ProbeKept(s, a);
    ViewsKept(s, a);
    TrailKept(s, a);
  }

  lemma {:induction false} Reachable(s: System, run: seq<Action>)
    requires Inv(s) && Possible(s, run)
    ensures Inv(Exec(s, run))
    decreases |run|
  {
    if run != [] {
      InvKept(s, run[0]);
      Reachable(Apply(s, run[0]), run[1..]);
    }
  }

  /** Half open is never orphaned, in any interleaving; only the four edges occur; no lookup asks with an open view. */
  lemma NeverOrphaned(cfg: Config, now: int, lookups: nat, run: seq<Action>)
    requires Possible(Start(cfg, now, lookups), run)
    ensures var s := Exec(Start(cfg, now, lookups), run);
            && (s.status == HalfOpen ==>
                  s.winner.Some? && s.winner.value < |s.threads| && Probing(s.threads[s.winner.value]))
            && (forall i :: 0 <= i < |s.trail| - 1 ==> Edge(s.trail[i], s.trail[i + 1]))
            && |s.trail| > 0 && s.trail[|s.trail| - 1] == s.status
            && (forall i :: 0 <= i < |s.views| ==> s.views[i] != Open)
  {
    Reachable(Start(cfg, now, lookups), run);
  }

  /** Whoever settles a probe, the breaker is not half open afterwards; and a probe goes nowhere but to its settling. */
  lemma ProbeEndsHalfOpen(s: System, a: Action)
    requires Enabled(s, a) && !a.Tick? && Probing(s.threads[a.t])
    ensures if a.Settle? then Apply(s, a).status != HalfOpen else Probing(Apply(s, a).threads[a.t])
  {
  }

  /** With every lookup returned the breaker is closed or open. */
  lemma QuietIsSettled(cfg: Config, now: int, lookups: nat, run: seq<Action>)
    requires Possible(Start(cfg, now, lookups), run)
    requires var s := Exec(Start(cfg, now, lookups), run); forall t: nat | t < |s.threads| :: s.threads[t] == Idle
    ensures Exec(Start(cfg, now, lookups), run).status in {Closed, Open}
  {
    Reachable(Start(cfg, now, lookups), run);
  }

  // ---- The documented single probe: exactly when it is single

  ghost predicate AtMostOneProbe(s: System) {
    forall t: nat, u: nat | t < |s.threads| && u < |s.threads| && Probing(s.threads[t]) && Probing(s.threads[u]) ::
        t == u
  }

  /** Probes are the winner's alone, and only while half open. */
  ghost predicate Sole(s: System) {
    forall t: nat | t < |s.threads| && Probing(s.threads[t]) :: s.status == HalfOpen && s.winner == Some(t)
  }

  /** A lookup arrives, or comes back from a lost claim, and finds the breaker half open. */
  predicate Intrudes(s: System, a: Action) {
    (a.Load? || a.Reload?) && s.status == HalfOpen
  }

  ghost predicate AlwaysOneProbe(s: System, run: seq<Action>)
    requires Possible(s, run)
    decreases |run|
  {
    AtMostOneProbe(s) && (run != [] ==> AlwaysOneProbe(Apply(s, run[0]), run[1..]))
  }

  ghost predicate NobodyIntrudes(s: System, run: seq<Action>)
    requires Possible(s, run)
    decreases |run|
  {
    run != [] ==> !Intrudes(s, run[0]) && NobodyIntrudes(Apply(s, run[0]), run[1..])
  }

  lemma IntruderProbes(s: System, a: Action)
    requires ProbePending(s) && Enabled(s, a) && Intrudes(s, a)
    ensures !AtMostOneProbe(Apply(s, a))
  {
    var t := Apply(s, a);
    assert Probing(t.threads[a.t]) && Probing(t.threads[s.winner.value]) && a.t != s.winner.value;
  }

  lemma SoleKept(s: System, a: Action)
    requires Enabled(s, a) && Sole(s) && !Intrudes(s, a)
    ensures Sole(Apply(s, a))
  {
  }

  lemma {:induction false} SingleProbeRun(s: System, run: seq<Action>)
    requires Inv(s) && Sole(s) && Possible(s, run)
    ensures AlwaysOneProbe(s, run) <==> NobodyIntrudes(s, run)
    decreases |run|
  {
    if run != [] {
      InvKept(s, run[0]);
      if Intrudes(s, run[0]) {
        IntruderProbes(s, run[0]);
      } else {
        SoleKept(s, run[0]);
        SingleProbeRun(Apply(s, run[0]), run[1..]);
      }
    }
  }

  /** One probe at a time, exactly in the runs where no lookup arrives while the breaker is half open. */
  lemma SingleProbeExactly(cfg: Config, now: int, lookups: nat, run: seq<Action>)
    requires Possible(Start(cfg, now, lookups), run)
    ensures AlwaysOneProbe(Start(cfg, now, lookups), run) <==> NobodyIntrudes(Start(cfg, now, lookups), run)
  {
    SingleProbeRun(Start(cfg, now, lookups), run);
  }

  lemma {:induction false} OneMore(s: System, run: seq<Action>, a: Action)
    requires Possible(s, run) && Enabled(Exec(s, run), a)
    ensures Possible(s, run + [a]) && Exec(s, run + [a]) == Apply(Exec(s, run), a)
    decreases |run|
  {
    if run == [] {
      assert run + [a] == [a] && [a][1..] == [];
    } else {
      OneMore(Apply(s, run[0]), run[1..], a);
      assert (run + [a])[1..] == run[1..] + [a];
    }
  }

  lemma NoStep(s: System)
    ensures Possible(s, []) && Exec(s, []) == s
  {
  }

  /** A first lookup is answered with a failure. */
  lemma Failing() returns (run: seq<Action>)
    ensures Possible(Start(Config(1, 5), 0, 2), run)
    ensures var s := Exec(Start(Config(1, 5), 0, 2), run);
            s.status == Closed && s.threads == [Counted(Closed, false), Idle] && s.failures == 1
                && s.cfg == Config(1, 5)
  {
    hide Exec, Possible;
    var s := Start(Config(1, 5), 0, 2);
    run := [];
    NoStep(s);
    assert s.threads == [Idle, Idle];
    OneMore(s, run, Load(0)); run := run + [Load(0)];
    OneMore(s, run, Ask(0)); run := run + [Ask(0)];
    OneMore(s, run, Reply(0, false)); run := run + [Reply(0, false)];
  }

  /** That trips a breaker with threshold 1, and the cooling time passes. */
  lemma OpenedAndCooled() returns (run: seq<Action>)
    ensures Possible(Start(Config(1, 5), 0, 2), run)
    ensures var s := Exec(Start(Config(1, 5), 0, 2), run);
            s.status == Open && s.threads == [Idle, Idle] && s.now - s.changedAt >= s.cfg.cooling
  {
    hide Exec, Possible, Start;
    var s := Start(Config(1, 5), 0, 2);
    run := Failing();
    OneMore(s, run, Settle(0)); run := run + [Settle(0)];
    OneMore(s, run, Trip(0)); run := run + [Trip(0)];
    OneMore(s, run, StampSettled(0)); run := run + [StampSettled(0)];
    OneMore(s, run, Tick(5)); run := run + [Tick(5)];
  }

  /** One lookup claims the probe, and another finds the breaker half open. */
  lemma ClaimedAndFound() returns (run: seq<Action>)
    ensures Possible(Start(Config(1, 5), 0, 2), run)
    ensures Exec(Start(Config(1, 5), 0, 2), run).threads == [StampingClaim, Asking(HalfOpen)]
  {
    hide Exec, Possible, Start;
    var s := Start(Config(1, 5), 0, 2);
    run := OpenedAndCooled();
    OneMore(s, run, Load(0)); run := run + [Load(0)];
    OneMore(s, run, Check(0)); run := run + [Check(0)];
    OneMore(s, run, Claim(0)); run := run + [Claim(0)];
    OneMore(s, run, Load(1)); run := run + [Load(1)];
  }

  /** The promise does break: with two lookups both can be asking the resolver as probes. */
  lemma TwoProbes() returns (run: seq<Action>)
    ensures Possible(Start(Config(1, 5), 0, 2), run)
    ensures var s := Exec(Start(Config(1, 5), 0, 2), run);
            s.threads == [Asked(HalfOpen), Asked(HalfOpen)] && !AtMostOneProbe(s)
  {
    hide Exec, Possible, Start;
    var s := Start(Config(1, 5), 0, 2);
    run := ClaimedAndFound();
    OneMore(s, run, StampClaim(0)); run := run + [StampClaim(0)];
    OneMore(s, run, Ask(0)); run := run + [Ask(0)];
    OneMore(s, run, Ask(1)); run := run + [Ask(1)];
    var end := Exec(s, run);
    assert Probing(end.threads[0]) && Probing(end.threads[1]);
  }
}
