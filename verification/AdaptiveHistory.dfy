/**
 * The state of the adaptive pool is what its history says: every field of an upstream, every read of a scan and every
 * ending of a lookup can be worked out from the log of reservations and feedback alone.
 */
module AdaptiveHistory {
  import opened Lookups
  import opened AdaptiveRate
  import opened AdaptiveUpstreams
  import opened AdaptiveMachine
  import Cyclic

  // ---- What the log says about one upstream

  /** The rate learned: a success adds increase / rate up to the maximum, a failure multiplies down to the minimum. */
  function Learned(o: Options, log: seq<Event>, u: nat): (rate: real)
    requires Valid(o)
    ensures InRange(o, rate)
  {
    hide Times, Over;
    if log == [] then o.initialQPS
    else
      var before, e := Learned(o, log[..|log| - 1], u), log[|log| - 1];
      if e.upstream == u && e.Success? then
        OverPositive(o.increase, before);
        Min(o.maxQPS, before + Over(o.increase, before))
      else if e.upstream == u && e.Fail? then
        Shrink(before, o.decrease);
        Max(o.minQPS, Times(before, o.decrease))
      else
        before
  }

  /** When the slot is free again: one interval after the time of the last reservation. */
  function Slot(log: seq<Event>, u: nat): int {
    if log == [] then 0
    else
      var e := log[|log| - 1];
      if e.upstream == u && e.Reserve? && e.rate > 0.0 then e.now + IntervalForQPS(e.rate)
          else Slot(log[..|log| - 1], u)
  }

  /** When the last failure has cooled down. */
  function Cooled(o: Options, log: seq<Event>, u: nat): int {
    if log == [] then 0
    else
      var e := log[|log| - 1];
      if e.upstream == u && e.Fail? then e.at + o.cooldown else Cooled(o, log[..|log| - 1], u)
  }

  /** How many of the reservations have had no feedback. */
  function Running(log: seq<Event>, u: nat): int {
    var t := Tally(log, u);
    t.reserved - t.succeeded - t.failed - t.released
  }

  ghost predicate FromLog(s: Pool, u: nat)
    requires Sane(s) && u < |s.ups|
  {
    var up := s.ups[u];
    && up.rate == Learned(s.o, s.log, u)
    && up.nextAllowed == Slot(s.log, u)
    && up.cooldownUntil == Cooled(s.o, s.log, u)
    && up.inFlight == Running(s.log, u)
    && up.successes == Tally(s.log, u).succeeded && up.failures == Tally(s.log, u).failed
  }

  lemma LogNext(o: Options, log: seq<Event>, e: Event, u: nat)
    requires Valid(o)
    ensures var before, after := Learned(o, log, u), Learned(o, log + [e], u);
      if e.upstream == u && e.Success? then after == Min(o.maxQPS, before + Over(o.increase, before))
      else if e.upstream == u && e.Fail? then after == Max(o.minQPS, Times(before, o.decrease))
      else after == before
    ensures Slot(log + [e], u) ==
            if e.upstream == u && e.Reserve? && e.rate > 0.0 then e.now + IntervalForQPS(e.rate) else Slot(log, u)
    ensures Cooled(o, log + [e], u) == if e.upstream == u && e.Fail? then e.at + o.cooldown else Cooled(o, log, u)
  {
    hide Times, Over, IntervalForQPS;
    assert (log + [e])[..|log|] == log;
  }

  lemma FromLogKept(s: Pool, a: Action, u: nat)
    requires Sane(s) && Enabled(s, a) && u < |s.ups| && FromLog(s, u)
    ensures u < |Apply(s, a).ups| && FromLog(Apply(s, a), u)
  {
    hide IntervalForQPS, Times, Over, Cyclic.Position, Cyclic.OffsetOf, AvailableAt, Examine, Learned, Slot, Cooled,
        Tally;
    var t := Apply(s, a);
    if |t.log| > |s.log| {
      var e := t.log[|s.log|];
      assert t.log == s.log + [e];
      LogNext(s.o, s.log, e, u);
      TallyNext(s.log, e, u);
    }
  }

  // ---- What a scan reads

  /** The read says what the log said when it was `mark` long. */
  ghost predicate ReadFrom(o: Options, log: seq<Event>, r: Read, mark: nat)
    requires Valid(o)
  {
    && mark <= |log|
    && r.inFlight == Running(log[..mark], r.upstream)
    && (r.availableAt == Slot(log[..mark], r.upstream) || r.availableAt == Cooled(o, log[..mark], r.upstream))
    && r.availableAt >= Slot(log[..mark], r.upstream) && r.availableAt >= Cooled(o, log[..mark], r.upstream)
  }

  ghost predicate ReadsFrom(o: Options, log: seq<Event>, seen: seq<Read>, marks: seq<nat>)
    requires Valid(o)
  {
    |marks| == |seen| && forall k: nat | k < |seen| :: ReadFrom(o, log, seen[k], marks[k])
  }

  /** A reservation is made at the rate the log says, by a walk that began where its ticket says. */
  ghost predicate ReserveFrom(o: Options, n: nat, log: seq<Event>, j: nat)
    requires Valid(o) && j < |log|
  {
    var e := log[j];
    e.Reserve? ==>
      && e.rate == Learned(o, log[..j], e.upstream) && e.inFlight == Running(log[..j], e.upstream)
      && ReadsFrom(o, log[..j], e.scan.seen, e.scan.marks)
      && n > 0 && e.scan.start == e.scan.ticket % n
  }

  /** Tickets are drawn in turn: reservations have increasing ones. */
  ghost predicate InTurn(log: seq<Event>, end: nat) {
    && (forall j: nat | j < |log| && log[j].Reserve? :: log[j].scan.ticket < end)
    && forall i: nat, j: nat | i < j < |log| && log[i].Reserve? && log[j].Reserve? ::
          log[i].scan.ticket < log[j].scan.ticket
  }

  ghost predicate ScanFrom(s: Pool, pc: Pc)
    requires Sane(s)
  {
    pc.Scanning? ==>
      && ReadsFrom(s.o, s.log, pc.seen, pc.marks)
      && pc.ticket + 1 == s.cursor && |s.ups| > 0 && pc.start == pc.ticket % |s.ups|
  }

  ghost predicate ReadInv(s: Pool)
    requires Sane(s)
  {
    && (forall u: nat | u < |s.ups| :: FromLog(s, u))
    && (forall j: nat | j < |s.log| :: ReserveFrom(s.o, |s.ups|, s.log, j))
    && (forall c: nat | c < |s.callers| :: ScanFrom(s, s.callers[c].pc))
    && (s.lock.Some? ==> s.cursor > 0) && InTurn(s.log, if s.lock.Some? then s.cursor - 1 else s.cursor)
  }

  lemma ReadsStay(o: Options, log: seq<Event>, e: Event, seen: seq<Read>, marks: seq<nat>)
    requires Valid(o) && ReadsFrom(o, log, seen, marks)
    ensures ReadsFrom(o, log + [e], seen, marks)
  {
    hide Running, Slot, Cooled;
    forall k: nat | k < |seen| ensures ReadFrom(o, log + [e], seen[k], marks[k]) {
      assert ReadFrom(o, log, seen[k], marks[k]);
      assert (log + [e])[..marks[k]] == log[..marks[k]];
    }
  }

  lemma ScansKeptFrom(s: Pool, a: Action, c: nat)
    requires Sane(s) && Enabled(s, a) && LockInv(s) && ReadInv(s) && c < |s.callers|
    ensures ScanFrom(Apply(s, a), Apply(s, a).callers[c].pc)
  {
    hide IntervalForQPS, Raised, Lowered, Cyclic.Position, Cyclic.OffsetOf, Examine, Running, Slot, Cooled, Learned,
      ReserveFrom, InTurn, InRange, Valid;
    var t := Apply(s, a);
    assert ScanFrom(s, s.callers[c].pc);
    if |t.log| > |s.log| {
      assert t.log == s.log + [t.log[|s.log|]];
      var pc := s.callers[c].pc;
      if pc.Scanning? { ReadsStay(s.o, s.log, t.log[|s.log|], pc.seen, pc.marks); }
    } else if a.ReadOne? && a.c == c {
      var pc := s.callers[c].pc;
      var i := Cyclic.Position(pc.start, |pc.seen|, |s.ups|);
      assert FromLog(s, i) && s.log[..|s.log|] == s.log;
      assert ReadFrom(s.o, s.log, t.callers[c].pc.seen[|pc.seen|], |s.log|);
    }
  }

  lemma ReservesKept(s: Pool, a: Action, j: nat)
    requires Sane(s) && Enabled(s, a) && ReadInv(s) && j < |Apply(s, a).log|
    ensures ReserveFrom(Apply(s, a).o, |Apply(s, a).ups|, Apply(s, a).log, j)
  {
    hide IntervalForQPS, Raised, Lowered, Cyclic.Position, Cyclic.OffsetOf, Examine, Running, Slot, Cooled, Learned,
      ReadsFrom, InTurn, InRange, Valid, AvailableAt;
    var t := Apply(s, a);
    if j < |s.log| {
      assert ReserveFrom(s.o, |s.ups|, s.log, j);
      assert t.log[..j] == s.log[..j];
    } else {
      assert t.log[..j] == s.log;
      assert ScanFrom(s, s.callers[a.c].pc);
      if a.Commit? { assert FromLog(s, t.log[j].upstream); }
    }
  }

  lemma TurnKept(s: Pool, a: Action)
    requires Sane(s) && Enabled(s, a) && LockInv(s) && ReadInv(s)
    ensures var t := Apply(s, a);
      (t.lock.Some? ==> t.cursor > 0) && InTurn(t.log, if t.lock.Some? then t.cursor - 1 else t.cursor)
  {
    hide IntervalForQPS, Raised, Lowered, Cyclic.Position, Cyclic.OffsetOf, Examine, ReadsFrom, FromLog, ReserveFrom,
      InRange, Valid, AvailableAt;
    if !a.Tick? { assert ScanFrom(s, s.callers[a.c].pc); }
  }

  lemma ReadInvKept(s: Pool, a: Action)
    requires Sane(s) && Enabled(s, a) && LockInv(s) && ReadInv(s)
    ensures ReadInv(Apply(s, a))
  {
    hide FromLog, ReserveFrom, ScanFrom, InTurn, Apply, Enabled;
    var t := Apply(s, a);
    SamePolicy(s, a);
    forall u: nat | u < |t.ups| ensures FromLog(t, u) { FromLogKept(s, a, u); }
    forall j: nat | j < |t.log| ensures ReserveFrom(t.o, |t.ups|, t.log, j) { ReservesKept(s, a, j); }
    forall c: nat | c < |t.callers| ensures ScanFrom(t, t.callers[c].pc) { ScansKeptFrom(s, a, c); }
    TurnKept(s, a);
  }

  // ---- How a lookup ends

  /** The events of caller c since the log was `began` long. */
  function Own(log: seq<Event>, began: nat, c: nat): seq<Event> {
    if |log| <= began then []
    else Own(log[..|log| - 1], began, c) + if log[|log| - 1].caller == c then [log[|log| - 1]] else []
  }

  lemma OwnNext(log: seq<Event>, e: Event, began: nat, c: nat)
    requires began <= |log|
    ensures Own(log + [e], began, c) == Own(log, began, c) + if e.caller == c then [e] else []
  {
    assert (log + [e])[..|log|] == log;
  }

  /** The k-th call asked the k-th upstream and failed by its answer. */
  ghost predicate CallFailed(own: seq<Event>, called: seq<nat>, k: nat)
    requires k < |called| && 2 * k + 1 < |own|
  {
    && own[2 * k].Reserve? && own[2 * k].upstream == called[k]
    && own[2 * k + 1].Fail? && !own[2 * k + 1].late && own[2 * k + 1].upstream == called[k]
  }

  ghost predicate AllCallsFailed(own: seq<Event>, called: seq<nat>) {
    |own| == 2 * |called| && forall k: nat | k < |called| :: CallFailed(own, called, k)
  }

  /** All calls but the last failed, and the last is still running. */
  ghost predicate LastCallRuns(own: seq<Event>, called: seq<nat>) {
    var n := |called|;
    && n > 0 && |own| == 2 * n - 1 && own[2 * n - 2].Reserve? && own[2 * n - 2].upstream == called[n - 1]
    && AllCallsFailed(own[..2 * n - 2], called[..n - 1])
  }

  /** All calls but the last failed, and the last ended with this event. */
  ghost predicate LastCallEnded(own: seq<Event>, called: seq<nat>, e: Event) {
    var n := |own|;
    n > 0 && own[n - 1] == e && |called| > 0 && e.upstream == called[|called| - 1] && LastCallRuns(own[..n - 1], called)
  }

  ghost predicate OwnOk(s: Pool, c: nat)
    requires c < |s.callers|
  {
    var me := s.callers[c];
    var own, called := Own(s.log, me.began, c), me.called;
    && me.began <= |s.log|
    && match me.pc
       case Returned(None) => own == [] && called == []
       case Returned(Some(Answered)) => own != [] && LastCallEnded(own, called, own[|own| - 1])
           && own[|own| - 1].Success?
       case Returned(Some(AllFailed(n))) => AllCallsFailed(own, called) && |called| == n == s.o.maxAttempts
       case Returned(Some(ContextEnded)) =>
         || (AllCallsFailed(own, called) && |called| < s.o.maxAttempts)
         || (own != [] && LastCallEnded(own, called, own[|own| - 1]) && CutShort(own[|own| - 1]))
       case Calling(_) => LastCallRuns(own, called)
       case _ => AllCallsFailed(own, called) && |called| < s.o.maxAttempts
  }

  /** The call was given up with the context: cancelled, or past its deadline. */
  predicate CutShort(e: Event) {
    e.Release? || (e.Fail? && e.late)
  }

  lemma CallStarts(own: seq<Event>, called: seq<nat>, e: Event)
    requires AllCallsFailed(own, called) && e.Reserve?
    ensures LastCallRuns(own + [e], called + [e.upstream])
  {
    var n := |called|;
    assert (own + [e])[..2 * n] == own && (called + [e.upstream])[..n] == called;
  }

  lemma CallEnds(own: seq<Event>, called: seq<nat>, e: Event)
    requires LastCallRuns(own, called) && e.upstream == called[|called| - 1]
    ensures LastCallEnded(own + [e], called, e)
    ensures e.Fail? && !e.late ==> AllCallsFailed(own + [e], called)
  {
    var n := |called|;
    assert (own + [e])[..2 * n - 1] == own;
    if e.Fail? && !e.late {
      forall k: nat | k < n ensures CallFailed(own + [e], called, k) {
        if k < n - 1 { assert CallFailed(own[..2 * n - 2], called[..n - 1], k); }
      }
    }
  }

  lemma OthersOwnKept(s: Pool, a: Action, c: nat)
    requires Sane(s) && Enabled(s, a) && c < |s.callers| && OwnOk(s, c) && !a.Tick? && a.c != c
    ensures c < |Apply(s, a).callers| && OwnOk(Apply(s, a), c)
  {
    hide IntervalForQPS, Raised, Lowered, Cyclic.Position, Cyclic.OffsetOf, Examine, AvailableAt, InRange, Valid,
      AllCallsFailed, LastCallRuns, LastCallEnded, Own;
    var t := Apply(s, a);
    var me := s.callers[c];
    if |t.log| > |s.log| {
      OwnNext(s.log, t.log[|s.log|], me.began, c);
      assert t.log == s.log + [t.log[|s.log|]] && Own(s.log, me.began, c) + [] == Own(s.log, me.began, c);
    }
  }

  lemma ActorOwnKept(s: Pool, a: Action)
    requires Sane(s) && Enabled(s, a) && LocalInv(s) && !a.Tick? && OwnOk(s, a.c)
    requires |Apply(s, a).log| > |s.log|
    ensures OwnOk(Apply(s, a), a.c)
  {
    hide IntervalForQPS, Raised, Lowered, Cyclic.Position, Cyclic.OffsetOf, Examine, AvailableAt, InRange, Valid,
      AllCallsFailed, LastCallRuns, LastCallEnded, ScanOk, Own;
    var t := Apply(s, a);
    var me, e := s.callers[a.c], t.log[|s.log|];
    assert CallerOk(s.o, me) && t.log == s.log + [e];
    OwnNext(s.log, e, me.began, a.c);
    var own := Own(s.log, me.began, a.c);
    if a.Commit? { CallStarts(own, me.called, e); } else { CallEnds(own, me.called, e); }
  }

  lemma OwnKept(s: Pool, a: Action, c: nat)
    requires Sane(s) && Enabled(s, a) && LocalInv(s) && c < |s.callers| && OwnOk(s, c)
    ensures c < |Apply(s, a).callers| && OwnOk(Apply(s, a), c)
  {
    if !a.Tick? && a.c != c {
      OthersOwnKept(s, a, c);
    } else if |Apply(s, a).log| > |s.log| {
      ActorOwnKept(s, a);
    } else {
      hide IntervalForQPS, Raised, Lowered, Cyclic.Position, Cyclic.OffsetOf, Examine, AvailableAt, InRange,
        AllCallsFailed, LastCallRuns, LastCallEnded, ScanOk, Own;
      NoEventsYet(s.log, c);
      NoCallsYet();
    }
  }

  lemma NoEventsYet(log: seq<Event>, c: nat)
    ensures Own(log, |log|, c) == []
  {
  }

  lemma NoCallsYet()
    ensures AllCallsFailed([], [])
  {
  }

  // ---- Whole runs

  ghost predicate History(s: Pool) {
    Inv(s) && ReadInv(s) && forall c: nat | c < |s.callers| :: OwnOk(s, c)
  }

  lemma HistoryStarts(o: Options, n: nat, m: nat)
    requires Valid(o) && o.maxAttempts <= n
    ensures History(Start(o, n, m))
  {
    hide Inv;
    InvStart(o, n, m);
  }

  lemma HistoryKept(s: Pool, a: Action)
    requires History(s) && Enabled(s, a)
    ensures History(Apply(s, a))
  {
    hide ReadInv, OwnOk, Enabled, Apply;
    InvKept(s, a);
    ReadInvKept(s, a);
    SamePolicy(s, a);
    forall c: nat | c < |Apply(s, a).callers| ensures OwnOk(Apply(s, a), c) { OwnKept(s, a, c); }
  }

  lemma {:induction false} HistoryRuns(s: Pool, run: seq<Action>)
    requires History(s) && Possible(s, run)
    ensures History(Exec(s, run))
    decreases |run|
  {
    hide Enabled, Apply;
    if run != [] {
      assert Inv(s);
      HistoryKept(s, run[0]);
      HistoryRuns(Apply(s, run[0]), run[1..]);
    }
  }

  lemma ReachedHistory(o: Options, n: nat, m: nat, run: seq<Action>, s: Pool)
    requires Reached(o, n, m, run, s)
    ensures History(s) && s.o == o && |s.ups| == n
  {
    HistoryStarts(o, n, m);
    HistoryRuns(Start(o, n, m), run);
    ReachedInv(o, n, m, run, s);
  }

  /** In every state every field of an upstream is what the history says. */
  lemma StateIsHistory(o: Options, n: nat, m: nat, run: seq<Action>, s: Pool, u: nat)
    requires Reached(o, n, m, run, s) && u < n
    ensures |s.ups| == n
    ensures var up, t := s.ups[u], Tally(s.log, u);
      && up.rate == Learned(o, s.log, u) && up.nextAllowed == Slot(s.log, u) && up.cooldownUntil == Cooled(o, s.log, u)
      && up.successes == t.succeeded && up.failures == t.failed
      && up.inFlight == t.reserved - t.succeeded - t.failed - t.released
  {
    hide Learned, Slot, Cooled, Tally;
    ReachedHistory(o, n, m, run, s);
    assert FromLog(s, u);
  }

  /**
   * Every reservation is made with the ticket next in turn, by a walk from the upstream that ticket names, and each of
   * its reads said what the history said at that moment.
   */
  lemma ReadsAreHistory(o: Options, n: nat, m: nat, run: seq<Action>, s: Pool, j: nat, k: nat)
    requires Reached(o, n, m, run, s) && j < |s.log| && s.log[j].Reserve? && k < n
    ensures var e := s.log[j];
      && |e.scan.seen| == |e.scan.marks| == n && e.scan.start == e.scan.ticket % n
      && e.rate == Learned(o, s.log[..j], e.upstream)
      && e.scan.seen[k].upstream == (e.scan.ticket % n + k) % n
      && ReadFrom(o, s.log[..j], e.scan.seen[k], e.scan.marks[k])
    ensures forall i: nat | i < j && s.log[i].Reserve? :: s.log[i].scan.ticket < s.log[j].scan.ticket
  {
    hide Learned, Slot, Cooled, Tally, ReadFrom;
    ReachedHistory(o, n, m, run, s);
    Selection(o, n, m, run, s, j);
    assert WalkedRightly(s.log[j].scan, n, k);
    assert ReserveFrom(s.o, |s.ups|, s.log, j);
  }

  function Failures(log: seq<Event>, u: nat): nat {
    if log == [] then 0
    else Failures(log[..|log| - 1], u) + if log[|log| - 1].upstream == u && log[|log| - 1].Fail? then 1 else 0
  }

  function Successes(log: seq<Event>, u: nat): nat {
    if log == [] then 0
    else Successes(log[..|log| - 1], u) + if log[|log| - 1].upstream == u && log[|log| - 1].Success? then 1 else 0
  }

  /** Lowering what the floor holds is lowering first. */
  lemma FloorStep(o: Options, x: real)
    requires Valid(o) && 0.0 < x
    ensures Max(o.minQPS, Times(Max(o.minQPS, x), o.decrease)) == Max(o.minQPS, Times(x, o.decrease))
  {
    hide Times;
    Shrink(o.minQPS, o.decrease);
    if x <= o.minQPS { TimesMonotone(x, o.minQPS, o.decrease); }
  }

  lemma {:induction false} OnlyFailures(o: Options, log: seq<Event>, more: seq<Event>, u: nat)
    requires Valid(o) && Successes(more, u) == 0
    ensures Learned(o, log + more, u) == Max(o.minQPS, Decayed(o.decrease, Learned(o, log, u), Failures(more, u)))
  {
    hide Times, Over, Learned, Slot, Cooled;
    if more == [] {
      assert log + more == log;
    } else {
      var before, e := more[..|more| - 1], more[|more| - 1];
      OnlyFailures(o, log, before, u);
      assert log + more == (log + before) + [e];
      LogNext(o, log + before, e, u);
      FloorStep(o, Decayed(o.decrease, Learned(o, log, u), Failures(before, u)));
    }
  }

  lemma {:induction false} OnlySuccesses(o: Options, log: seq<Event>, more: seq<Event>, u: nat)
    requires Valid(o) && Failures(more, u) == 0
    ensures var r, final, k := Learned(o, log, u), Learned(o, log + more, u), Successes(more, u);
      && (final == o.maxQPS || Times(final, final) >= Times(r, r) + Scaled(k, 2.0 * o.increase))
      && r <= final <= r + Scaled(k, Over(o.increase, r))
  {
    hide Times, Over, Learned, Slot, Cooled;
    var r := Learned(o, log, u);
    if more == [] {
      assert log + more == log;
    } else {
      var before, e := more[..|more| - 1], more[|more| - 1];
      OnlySuccesses(o, log, before, u);
      assert log + more == (log + before) + [e];
      LogNext(o, log + before, e, u);
      var mid := Learned(o, log + before, u);
      OverTimes(o.increase, mid);
      OverPositive(o.increase, mid);
      OverAntitone(o.increase, r, mid);
      SquareStep(mid, Over(o.increase, mid));
    }
  }

  /** Between two reservations of u without a success, k failures: the rate is max(min, rate·factorᵏ). */
  lemma RateAfterFailures(o: Options, n: nat, m: nat, run: seq<Action>, s: Pool, i: nat, j: nat)
    requires Reached(o, n, m, run, s) && i < j < |s.log|
    requires s.log[i].Reserve? && s.log[j].Reserve? && s.log[i].upstream == s.log[j].upstream
    requires Successes(s.log[i..j], s.log[i].upstream) == 0
    ensures s.log[i].rate > 0.0
    ensures s.log[j].rate ==
            Max(o.minQPS, Decayed(o.decrease, s.log[i].rate, Failures(s.log[i..j], s.log[i].upstream)))
  {
    hide Learned, Decayed, Failures, Successes, Slot, Cooled, Tally;
    RatesAreLearned(o, n, m, run, s, i, j);
    OnlyFailures(o, s.log[..i], s.log[i..j], s.log[i].upstream);
  }

  /**
   * Between two reservations of u without a failure, k successes: the rate is the maximum or its square has grown by
   * 2·k·increase, and it has grown by no more than k·increase / rate.
   */
  lemma RateAfterSuccesses(o: Options, n: nat, m: nat, run: seq<Action>, s: Pool, i: nat, j: nat)
    requires Reached(o, n, m, run, s) && i < j < |s.log|
    requires s.log[i].Reserve? && s.log[j].Reserve? && s.log[i].upstream == s.log[j].upstream
    requires Failures(s.log[i..j], s.log[i].upstream) == 0
    ensures s.log[i].rate > 0.0
    ensures var r, final, k := s.log[i].rate, s.log[j].rate, Successes(s.log[i..j], s.log[i].upstream);
      && (final == o.maxQPS || Times(final, final) >= Times(r, r) + Scaled(k, 2.0 * o.increase))
      && r <= final <= r + Scaled(k, Over(o.increase, r))
  {
    hide Learned, Failures, Successes, Slot, Cooled, Tally, Times, Over, Scaled;
    RatesAreLearned(o, n, m, run, s, i, j);
    OnlySuccesses(o, s.log[..i], s.log[i..j], s.log[i].upstream);
  }

  /** With no outcome between, whatever was reserved or released, the rate is the same. */
  lemma RateUnchanged(o: Options, n: nat, m: nat, run: seq<Action>, s: Pool, i: nat, j: nat)
    requires Reached(o, n, m, run, s) && i < j < |s.log|
    requires s.log[i].Reserve? && s.log[j].Reserve? && s.log[i].upstream == s.log[j].upstream
    requires Successes(s.log[i..j], s.log[i].upstream) == 0 && Failures(s.log[i..j], s.log[i].upstream) == 0
    ensures s.log[j].rate == s.log[i].rate
  {
    hide Learned, Failures, Successes, Slot, Cooled, Tally;
    RatesAreLearned(o, n, m, run, s, i, j);
    RateAfterFailures(o, n, m, run, s, i, j);
  }

  lemma RatesAreLearned(o: Options, n: nat, m: nat, run: seq<Action>, s: Pool, i: nat, j: nat)
    requires Reached(o, n, m, run, s) && i < j < |s.log| && s.log[i].Reserve? && s.log[j].Reserve?
    ensures s.log[i].rate == Learned(o, s.log[..i], s.log[i].upstream)
    ensures s.log[j].rate == Learned(o, s.log[..i] + s.log[i..j], s.log[j].upstream)
    ensures InRange(o, s.log[i].rate) && s.log[i].rate > 0.0
  {
    hide Learned, Slot, Cooled, Tally, ReadsFrom;
    ReachedHistory(o, n, m, run, s);
    assert ReserveFrom(s.o, |s.ups|, s.log, i) && ReserveFrom(s.o, |s.ups|, s.log, j);
    assert s.log[..i] + s.log[i..j] == s.log[..j];
  }

  /**
   * How a lookup ends follows from its own calls: answered exactly if the last call succeeded; with all attempts failed
   * exactly if maxAttempts calls were made and each failed by its answer; else, once returned, with the context, which
   * cut the last call short or ended before another one.
   */
  lemma Endings(o: Options, n: nat, m: nat, run: seq<Action>, s: Pool, c: nat)
    requires Reached(o, n, m, run, s) && c < |s.callers|
    ensures var me := s.callers[c];
      var own := Own(s.log, me.began, c);
      && (me.pc == Returned(Some(Answered)) <==> own != [] && own[|own| - 1].Success?)
      && ((me.pc.Returned? && me.pc.ending.Some? && me.pc.ending.value.AllFailed?) <==>
            |me.called| == o.maxAttempts && AllCallsFailed(own, me.called))
      && (me.pc.Returned? && me.pc.ending.Some? && me.pc.ending.value.AllFailed? ==>
            me.pc.ending.value.errors == o.maxAttempts)
      && (me.pc == Returned(Some(ContextEnded)) ==>
            || (AllCallsFailed(own, me.called) && |me.called| < o.maxAttempts)
            || (own != [] && CutShort(own[|own| - 1]) && LastCallEnded(own, me.called, own[|own| - 1])))
  {
    hide CallFailed, Own;
    ReachedHistory(o, n, m, run, s);
    assert OwnOk(s, c);
    var me := s.callers[c];
    var own := Own(s.log, me.began, c);
    if AllCallsFailed(own, me.called) && own != [] { LastFailed(own, me.called); }
  }

  lemma LastFailed(own: seq<Event>, called: seq<nat>)
    requires AllCallsFailed(own, called) && own != []
    ensures own[|own| - 1].Fail? && !own[|own| - 1].late
  {
    assert CallFailed(own, called, |called| - 1);
  }

  /** A call cut short by its deadline counts as a failure, with the cooldown from now; a cancelled one only lets go. */
  lemma ContextFeedback(s: Pool, c: nat)
    requires Sane(s) && Enabled(s, Expire(c))
    ensures var u := s.callers[c].pc.upstream;
      var up, late, dropped := s.ups[u], Apply(s, Expire(c)).ups[u], Apply(s, Cancel(c)).ups[u];
      && late.rate == Max(s.o.minQPS, Times(up.rate, s.o.decrease)) && late.cooldownUntil == s.now + s.o.cooldown
      && late.failures == up.failures + 1 && late.successes == up.successes && late.nextAllowed == up.nextAllowed
      && late.inFlight == dropped.inFlight == up.inFlight - 1
      && dropped == up.(inFlight := up.inFlight - 1)
    ensures forall k :: 0 <= k < |s.ups| && k != s.callers[c].pc.upstream ==>
              Apply(s, Expire(c)).ups[k] == Apply(s, Cancel(c)).ups[k] == s.ups[k]
  {
    hide Times;
  }
}
