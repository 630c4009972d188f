/**
 * The adaptive pool under every interleaving of any number of concurrent lookups.
 * A step is one critical section: beginning a scan under the selection lock, reading one upstream, committing,
 * or feeding an outcome back under the upstream's own lock. The log is the history of what happened to upstreams.
 */
module AdaptiveMachine {
  import opened Lookups
  import opened AdaptiveRate
  import opened AdaptiveUpstreams
  import Cyclic

  datatype Ending = Answered | AllFailed(errors: nat) | ContextEnded

  datatype Pc =
    | Returned(ending: Option<Ending>)
    | AtHead
    | Scanning(now: int, ticket: nat, start: nat, seen: seq<Read>, marks: seq<nat>, scan: Scan)
    | Waiting(earliest: Option<int>)
    | Calling(upstream: nat)

  /** The locals of one lookup; it has asked the upstreams `called`, oldest first, since the log was `began` long. */
  datatype Caller = Caller(pc: Pc, attempt: nat, excluded: set<nat>, errors: nat, called: seq<nat>, began: nat)

  /**
   * A finished scan: what it read from `start` on, for a lookup that had asked the upstreams `asked`, and how long the
   * log was at each read.
   */
  datatype Walk = Walk(ticket: nat, start: nat, asked: seq<nat>, seen: seq<Read>, marks: seq<nat>)

  datatype Event =
    | Reserve(
        caller: nat, upstream: nat, now: int, rate: real, inFlight: int, scan: Walk, position: nat, readAt: nat)
    | Success(caller: nat, upstream: nat)
    | Fail(caller: nat, upstream: nat, at: int, late: bool)   // late: the context's deadline, not the answer
    | Release(caller: nat, upstream: nat)

  datatype Pool = Pool(
    o: Options, ups: seq<State>, now: int, cursor: nat, lock: Option<nat>, callers: seq<Caller>, log: seq<Event>)

  datatype Action =
    | Tick(passed: nat)
    | Enter(c: nat, live: bool)   // whether the context has not ended already
    | Begin(c: nat)
    | ReadOne(c: nat)
    | Commit(c: nat)
    | FindNone(c: nat)
    | Wake(c: nat)
    | QuitWaiting(c: nat)
    | Answer(c: nat)
    | Fault(c: nat)
    | Expire(c: nat)
    | Cancel(c: nat)

  /** What the types of the original guarantee, and the rate bounds. */
  ghost predicate Sane(s: Pool) {
    && Valid(s.o) && s.o.maxAttempts <= |s.ups|
    && (forall u :: 0 <= u < |s.ups| ==> InRange(s.o, s.ups[u].rate))
    && (forall c :: 0 <= c < |s.callers| ==> PcSane(s.callers[c].pc, |s.ups|))
  }

  predicate PcSane(pc: Pc, n: nat) {
    match pc
    case Calling(u) => u < n
    case Scanning(_, _, start, seen, marks, scan) =>
      start < n && |marks| == |seen| <= n && (scan.selected.Some? ==> scan.selected.value < n)
    case _ => true
  }

  ghost predicate Enabled(s: Pool, a: Action) {
    a.Tick? || (a.c < |s.callers| &&
      var pc := s.callers[a.c].pc;
      match a
      case Enter(_, _) => pc.Returned?
      case Begin(_) => pc.AtHead? && s.lock.None?
      case ReadOne(_) => pc.Scanning? && |pc.seen| < |s.ups|
      case Commit(_) => pc.Scanning? && |pc.seen| == |s.ups| && pc.scan.selected.Some?
      case FindNone(_) => pc.Scanning? && |pc.seen| == |s.ups| && pc.scan.selected.None?
      case Wake(_) => pc.Waiting? && (pc.earliest.Some? ==> s.now >= pc.earliest.value)
      case QuitWaiting(_) => pc.Waiting?
      case _ => pc.Calling?)
  }

  function SetCaller(s: Pool, c: nat, caller: Caller): Pool
    requires c < |s.callers|
  {
    s.(callers := s.callers[c := caller])
  }

  /** The step of a caller that returns its slot in some state of the upstream. */
  function Feedback(s: Pool, c: nat, u: nat, next: State, caller: Caller, event: Event): Pool
    requires c < |s.callers| && u < |s.ups|
  {
    SetCaller(s, c, caller).(ups := s.ups[u := next], log := s.log + [event])
  }

  ghost function Apply(s: Pool, a: Action): (t: Pool)
    requires Sane(s) && Enabled(s, a)
    ensures Sane(t)
  {
    hide IntervalForQPS, Raised, Lowered, Cyclic.Position, Cyclic.OffsetOf, AvailableAt;
    if a.Tick? then s.(now := s.now + a.passed) else
    var me := s.callers[a.c];
    match a
    case Enter(c, live) => SetCaller(s, c,
        Caller(if live then AtHead else Returned(Some(ContextEnded)), 0, {}, 0, [], |s.log|))
    case Begin(c) =>
      var start := s.cursor % |s.ups|;
      SetCaller(s, c, me.(pc := Scanning(s.now, s.cursor, start, [], [], EMPTY_SCAN)))
      .(cursor := s.cursor + 1, lock := Some(c))
    case ReadOne(c) =>
      var pc := me.pc;
      var i := Cyclic.Position(pc.start, |pc.seen|, |s.ups|);
      var r := Read(i, i in me.excluded, AvailableAt(s.ups[i]), s.ups[i].inFlight);
      var scanned := pc.(seen := pc.seen + [r], marks := pc.marks + [|s.log|], scan := Examine(pc.scan, r, pc.now));
      SetCaller(s, c, me.(pc := scanned))
    case Commit(c) =>
      var pc := me.pc;
      var u := pc.scan.selected.value;
      var k := Cyclic.OffsetOf(pc.start, u, |s.ups|);
      var walk := Walk(pc.ticket, pc.start, me.called, pc.seen, pc.marks);
      var event := Reserve(c, u, pc.now, s.ups[u].rate, s.ups[u].inFlight, walk, k, pc.marks[k]);
      Feedback(s, c, u, Reserved(s.ups[u], pc.now),
               me.(pc := Calling(u), attempt := me.attempt + 1, called := me.called + [u]), event).(lock := None)
    case FindNone(c) => SetCaller(s, c, me.(pc := Waiting(me.pc.scan.earliest))).(lock := None)
    case Wake(c) => SetCaller(s, c, me.(pc := AtHead))
    case QuitWaiting(c) => SetCaller(s, c, me.(pc := Returned(Some(ContextEnded))))
    case Answer(c) =>
      var u := me.pc.upstream;
      Feedback(s, c, u, Succeeded(s.o, s.ups[u]), me.(pc := Returned(Some(Answered))), Success(c, u))
    case Fault(c) =>
      var u := me.pc.upstream;
      var pc := if me.attempt < s.o.maxAttempts then AtHead else Returned(Some(AllFailed(me.errors + 1)));
      Feedback(s, c, u, Failed(s.o, s.ups[u], s.now),
               me.(pc := pc, excluded := me.excluded + {u}, errors := me.errors + 1), Fail(c, u, s.now, false))
    case Expire(c) =>
      var u := me.pc.upstream;
      Feedback(s, c, u, Failed(s.o, s.ups[u], s.now), me.(pc := Returned(Some(ContextEnded))),
               Fail(c, u, s.now, true))
    case Cancel(c) =>
      var u := me.pc.upstream;
      Feedback(s, c, u, Released(s.ups[u]), me.(pc := Returned(Some(ContextEnded))), Release(c, u))
  }

  ghost predicate Possible(s: Pool, run: seq<Action>)
    requires Sane(s)
    decreases |run|
  {
    run == [] || (Enabled(s, run[0]) && Possible(Apply(s, run[0]), run[1..]))
  }

  ghost function Exec(s: Pool, run: seq<Action>): Pool
    requires Sane(s) && Possible(s, run)
    decreases |run|
  {
    if run == [] then s else Exec(Apply(s, run[0]), run[1..])
  }

  /** A new pool of n upstreams and m callers that have not called yet. */
  ghost function Start(o: Options, n: nat, m: nat): (s: Pool)
    requires Valid(o) && o.maxAttempts <= n
    ensures Sane(s)
  {
    Pool(o, seq(n, _ => Fresh(o)), 0, 0, None, seq(m, _ => Caller(Returned(None), 0, {}, 0, [], 0)), [])
  }

  // ---- The selection lock and the locals of each caller

  ghost predicate LockInv(s: Pool) {
    && (s.lock.Some? ==> s.lock.value < |s.callers|)
    && forall c: nat | c < |s.callers| :: s.callers[c].pc.Scanning? <==> s.lock == Some(c)
  }

  lemma LockKept(s: Pool, a: Action)
    requires Sane(s) && Enabled(s, a) && LockInv(s)
    ensures LockInv(Apply(s, a))
  {
    hide Valid, InRange, Raised, Lowered, IntervalForQPS, Cyclic.Position, Cyclic.OffsetOf, AvailableAt, Examine;
  }

  ghost predicate Distinct(called: seq<nat>) {
    forall i, j :: 0 <= i < j < |called| ==> called[i] != called[j]
  }

  /** The bookkeeping of one lookup at each point of its loop. */
  ghost predicate CallerOk(o: Options, me: Caller) {
    && Distinct(me.called) && |me.called| == me.attempt <= o.maxAttempts
    && match me.pc
       case Returned(ending) => ending.Some? && ending.value.AllFailed? ==>
           ending.value.errors == me.attempt == o.maxAttempts
       case Calling(u) =>
         && me.attempt > 0 && me.called[me.attempt - 1] == u && me.errors == me.attempt - 1
         && me.excluded == Cyclic.Elements(me.called[..me.attempt - 1])
       case Waiting(earliest) => HeadOk(o, me) && earliest.Some?
       case _ => HeadOk(o, me)
  }

  ghost predicate HeadOk(o: Options, me: Caller) {
    me.attempt < o.maxAttempts && me.errors == me.attempt && me.excluded == Cyclic.Elements(me.called)
  }

  /** The reads of a scan in progress are those of its walk, and the running selection is that of the whole scan. */
  ghost predicate ScanOk(me: Caller, n: nat) {
    me.pc.Scanning? ==>
      && me.pc.scan == ScanAll(me.pc.seen, me.pc.now)
      && forall k: nat | k < |me.pc.seen| :: WalkRead(me, n, k)
  }

  ghost predicate WalkRead(me: Caller, n: nat, k: nat)
    requires me.pc.Scanning? && k < |me.pc.seen|
  {
    n > 0 && me.pc.seen[k].upstream == Cyclic.Position(me.pc.start, k, n)
    && (me.pc.seen[k].excluded <==> me.pc.seen[k].upstream in me.excluded)
  }

  ghost predicate LocalInv(s: Pool) {
    forall c: nat | c < |s.callers| :: CallerOk(s.o, s.callers[c]) && ScanOk(s.callers[c], |s.ups|)
  }

  /** The walk read each of n upstreams once, in cyclic order, and skipped exactly those asked before. */
  ghost predicate WholeWalk(walk: Walk, n: nat) {
    n > 0 && walk.start < n && |walk.seen| == n && forall k: nat | k < n :: WalkedRightly(walk, n, k)
  }

  ghost predicate WalkedRightly(walk: Walk, n: nat, k: nat)
    requires n > 0 && k < |walk.seen|
  {
    && walk.seen[k].upstream == Cyclic.Position(walk.start, k, n)
    && (walk.seen[k].excluded <==> walk.seen[k].upstream in walk.asked)
  }

  function WalkOf(me: Caller): Walk
    requires me.pc.Scanning?
  {
    Walk(me.pc.ticket, me.pc.start, me.called, me.pc.seen, me.pc.marks)
  }

  lemma CompleteScanWalks(s: Pool, c: nat)
    requires Sane(s) && LocalInv(s) && Enabled(s, Commit(c))
    ensures var me := s.callers[c]; WholeWalk(WalkOf(me), |s.ups|)
  {
    hide Cyclic.Position, Valid, InRange;
    var me := s.callers[c];
    assert CallerOk(s.o, me) && ScanOk(me, |s.ups|);
    forall k: nat | k < |s.ups| ensures WalkedRightly(WalkOf(me), |s.ups|, k) {
      assert WalkRead(me, |s.ups|, k);
    }
  }

  /** A complete scan selects an upstream this lookup has not asked, the least loaded of those it found free. */
  lemma SelectionIsLeast(s: Pool, c: nat)
    requires Sane(s) && LocalInv(s) && Enabled(s, Commit(c))
    ensures var pc := s.callers[c].pc; var u := pc.scan.selected.value; var k := Cyclic.OffsetOf(pc.start, u, |s.ups|);
            && u !in s.callers[c].excluded && LeastLoaded(pc.seen, pc.now, k) && Names(pc.seen[k], pc.scan)
  {
    var me := s.callers[c];
    var pc := me.pc;
    ScanIsArgmin(pc.seen, pc.now);
    var k: nat :| LeastLoaded(pc.seen, pc.now, k) && Names(pc.seen[k], pc.scan);
    assert WalkRead(me, |s.ups|, k);
    PositionInjective(pc.start, k, |s.ups|);
  }

  lemma PositionInjective(start: nat, k: nat, n: nat)
    requires k < n
    ensures Cyclic.OffsetOf(start, Cyclic.Position(start, k, n), n) == k
  {
    var i := Cyclic.Position(start, k, n);
    var k' := Cyclic.OffsetOf(start, i, n);
    Cyclic.OffsetMeets(start, i, n);
    Cyclic.SameStep(start, k, k', n);
  }

  /** A lookup with attempts left always has an upstream to wait for. */
  lemma SomebodyToWaitFor(s: Pool, c: nat)
    requires Sane(s) && LocalInv(s) && Enabled(s, FindNone(c))
    ensures s.callers[c].pc.scan.earliest.Some?
  {
    hide Cyclic.Position, Cyclic.OffsetOf;
    var me := s.callers[c];
    var pc := me.pc;
    var n := |s.ups|;
    assert CallerOk(s.o, me) && ScanOk(me, n);
    var left := Cyclic.SomeoneLeft(me.called, n);
    Cyclic.OffsetMeets(pc.start, left, n);
    var k := Cyclic.OffsetOf(pc.start, left, n);
    assert WalkRead(me, n, k);
    ScanIsArgmin(pc.seen, pc.now);
    ScanFindsEarliest(pc.seen, pc.now);
    assert Busy(pc.seen[k], pc.now);
  }

  lemma ActorKept(s: Pool, a: Action)
    requires Sane(s) && Enabled(s, a) && LocalInv(s) && !a.Tick?
    ensures a.c < |Apply(s, a).callers| && CallerOk(s.o, Apply(s, a).callers[a.c])
  {
    hide InRange, Raised, Lowered, IntervalForQPS, Cyclic.Position, Cyclic.OffsetOf, AvailableAt, Examine;
    assert Cyclic.Elements<nat>([]) == {};
    var me := s.callers[a.c];
    assert CallerOk(s.o, me);
    match a {
      case Commit(c) =>
        SelectionIsLeast(s, c);
        var next := me.called + [me.pc.scan.selected.value];
        assert next[..me.attempt] == me.called;
      case FindNone(c) => SomebodyToWaitFor(s, c);
      case Fault(c) => LastElement(me.called);
      case _ =>
    }
  }

  lemma CallersKept(s: Pool, a: Action)
    requires Sane(s) && Enabled(s, a) && LocalInv(s)
    ensures forall c: nat | c < |s.callers| :: CallerOk(s.o, Apply(s, a).callers[c])
  {
    hide CallerOk, InRange, Raised, Lowered, IntervalForQPS, Cyclic.Position, Cyclic.OffsetOf, AvailableAt, Examine;
    if !a.Tick? { ActorKept(s, a); }
  }

  lemma LastElement(called: seq<nat>)
    requires |called| > 0
    ensures Cyclic.Elements(called) == Cyclic.Elements(called[..|called| - 1]) + {called[|called| - 1]}
  {
    assert called == called[..|called| - 1] + [called[|called| - 1]];
  }

  lemma ScansKept(s: Pool, a: Action)
    requires Sane(s) && Enabled(s, a) && LocalInv(s)
    ensures forall c: nat | c < |s.callers| :: ScanOk(Apply(s, a).callers[c], |s.ups|)
  {
    hide Valid, InRange, Raised, Lowered, IntervalForQPS, Cyclic.OffsetOf, Cyclic.Position, AvailableAt, Examine,
        CallerOk;
    if a.ReadOne? {
      var t := Apply(s, a);
      var me, next := s.callers[a.c], t.callers[a.c];
      assert ScanOk(me, |s.ups|);
      ScanAppend(me.pc.seen, next.pc.seen[|me.pc.seen|], me.pc.now);
      forall k: nat | k < |next.pc.seen| ensures WalkRead(next, |s.ups|, k) {
        if k < |me.pc.seen| { assert WalkRead(me, |s.ups|, k); }
      }
    }
  }

  lemma ScanAppend(seen: seq<Read>, r: Read, now: int)
    ensures ScanAll(seen + [r], now) == Examine(ScanAll(seen, now), r, now)
  {
    assert (seen + [r])[..|seen|] == seen;
  }

  // ---- What a scan in progress may still rely on, while feedback from others lands

  /** No failure of u among the first `mark` events reaches beyond `limit` with its cooldown. */
  ghost predicate CooledBy(o: Options, log: seq<Event>, mark: nat, u: nat, limit: int) {
    forall j: nat | j < mark && j < |log| && log[j].Fail? && log[j].upstream == u :: log[j].at + o.cooldown <= limit
  }

  ghost predicate ReadHolds(s: Pool, r: Read, mark: nat) {
    && r.upstream < |s.ups| && mark <= |s.log|
    && s.ups[r.upstream].inFlight <= r.inFlight
    && s.ups[r.upstream].nextAllowed <= r.availableAt
    && CooledBy(s.o, s.log, mark, r.upstream, r.availableAt)
  }

  ghost predicate ReadsInv(s: Pool) {
    forall c: nat | c < |s.callers| :: CallerReads(s, s.callers[c].pc)
  }

  ghost predicate CallerReads(s: Pool, pc: Pc) {
    pc.Scanning? ==> |pc.marks| == |pc.seen| && forall k: nat | k < |pc.seen| :: ReadHolds(s, pc.seen[k], pc.marks[k])
  }

  // ---- The history of each upstream

  ghost predicate EventOk(s: Pool, e: Event) {
    && e.upstream < |s.ups|
    && (e.Fail? ==> e.at <= s.now && e.at + s.o.cooldown <= s.ups[e.upstream].cooldownUntil)
    && (e.Reserve? ==>
          && InRange(s.o, e.rate) && e.rate > 0.0
          && e.now + IntervalForQPS(e.rate) <= s.ups[e.upstream].nextAllowed)
  }

  ghost predicate HistoryInv(s: Pool) {
    forall j: nat | j < |s.log| :: EventOk(s, s.log[j])
  }

  /** Two reservations of one upstream are an interval apart, at the rate of the first. */
  ghost predicate Spaced(log: seq<Event>) {
    forall i: nat, j: nat | i < j < |log| :: Apart(log[i], log[j])
  }

  ghost predicate Apart(e: Event, f: Event) {
    e.Reserve? && f.Reserve? && e.upstream == f.upstream && e.rate > 0.0 ==> f.now >= e.now + IntervalForQPS(e.rate)
  }

  /** A granted reservation: the least loaded free upstream as read, still no more loaded, and cooled down when read. */
  ghost predicate Granted(o: Options, n: nat, log: seq<Event>, j: nat)
    requires j < |log|
  {
    var e := log[j];
    e.Reserve? ==>
      && WholeWalk(e.scan, n)
      && LeastLoaded(e.scan.seen, e.now, e.position) && e.scan.seen[e.position].upstream == e.upstream
      && e.inFlight <= e.scan.seen[e.position].inFlight
      && e.readAt <= j && CooledBy(o, log, e.readAt, e.upstream, e.now)
  }

  ghost predicate GrantsInv(s: Pool) {
    Spaced(s.log) && forall j: nat | j < |s.log| :: Granted(s.o, |s.ups|, s.log, j)
  }

  lemma CooledExtends(o: Options, log: seq<Event>, mark: nat, u: nat, limit: int, e: Event)
    requires mark <= |log| && CooledBy(o, log, mark, u, limit)
    ensures CooledBy(o, log + [e], mark, u, limit)
  {
  }

  /** An event that leaves the slot of its upstream alone keeps every read valid. */
  lemma FeedbackKeepsReads(s: Pool, c: nat, u: nat, next: State, caller: Caller, event: Event)
    requires c < |s.callers| && u < |s.ups| && ReadsInv(s) && !caller.pc.Scanning?
    requires next.inFlight <= s.ups[u].inFlight && next.nextAllowed == s.ups[u].nextAllowed
    ensures ReadsInv(Feedback(s, c, u, next, caller, event))
  {
    var t := Feedback(s, c, u, next, caller, event);
    forall r: Read, mark: nat | ReadHolds(s, r, mark) ensures ReadHolds(t, r, mark) {
      CooledExtends(s.o, s.log, mark, r.upstream, r.availableAt, event);
    }
    forall d: nat | d < |t.callers| ensures CallerReads(t, t.callers[d].pc) {
      if d != c { assert CallerReads(s, s.callers[d].pc); }
    }
  }

  lemma ReadsKept(s: Pool, a: Action)
    requires Sane(s) && Enabled(s, a) && LockInv(s) && ReadsInv(s) && HistoryInv(s)
    ensures ReadsInv(Apply(s, a))
  {
    hide Valid, InRange, Raised, Lowered, IntervalForQPS, Cyclic.Position, Cyclic.OffsetOf, Examine, CooledBy;
    var t := Apply(s, a);
    if a.Answer? || a.Fault? || a.Expire? || a.Cancel? {
      var u := s.callers[a.c].pc.upstream;
      FeedbackKeepsReads(s, a.c, u, t.ups[u], t.callers[a.c], t.log[|s.log|]);
    } else if a.Commit? {
      assert forall d: nat | d < |t.callers| :: !t.callers[d].pc.Scanning?;
    } else {
      assert t.ups == s.ups && t.log == s.log && t.o == s.o;
      forall d: nat | d < |t.callers| ensures CallerReads(t, t.callers[d].pc) {
        var pc := s.callers[d].pc;
        assert CallerReads(s, pc);
        assert pc.Scanning? ==> forall k: nat | k < |pc.seen| ::
            ReadHolds(s, pc.seen[k], pc.marks[k]) && ReadHolds(t, pc.seen[k], pc.marks[k]);
        if a.ReadOne? && d == a.c {
          FreshRead(s, Cyclic.Position(pc.start, |pc.seen|, |s.ups|));
        }
      }
    }
  }

  lemma FreshRead(s: Pool, i: nat)
    requires HistoryInv(s) && i < |s.ups|
    ensures CooledBy(s.o, s.log, |s.log|, i, AvailableAt(s.ups[i]))
  {
    forall j: nat | j < |s.log| && s.log[j].Fail? && s.log[j].upstream == i
      ensures s.log[j].at + s.o.cooldown <= AvailableAt(s.ups[i])
    {
      assert EventOk(s, s.log[j]);
    }
  }

  /** At the commit the selected slot is still free at the scan's time, and the failures it knew of have cooled down. */
  lemma CommitTimely(s: Pool, c: nat)
    requires Sane(s) && LocalInv(s) && ReadsInv(s) && Enabled(s, Commit(c))
    ensures var pc := s.callers[c].pc; var u := pc.scan.selected.value; var k := Cyclic.OffsetOf(pc.start, u, |s.ups|);
            && s.ups[u].nextAllowed <= pc.now
            && LeastLoaded(pc.seen, pc.now, k) && pc.seen[k].upstream == u && s.ups[u].inFlight <= pc.seen[k].inFlight
            && pc.marks[k] <= |s.log| && CooledBy(s.o, s.log, pc.marks[k], u, pc.now)
  {
    SelectionIsLeast(s, c);
    var pc := s.callers[c].pc;
    var k := Cyclic.OffsetOf(pc.start, pc.scan.selected.value, |s.ups|);
    assert CallerReads(s, pc) && ReadHolds(s, pc.seen[k], pc.marks[k]) && Eligible(pc.seen[k], pc.now);
  }

  lemma HistoryKept(s: Pool, a: Action)
    requires Sane(s) && Enabled(s, a) && LocalInv(s) && ReadsInv(s) && HistoryInv(s)
    ensures HistoryInv(Apply(s, a))
  {
    hide Raised, Lowered, IntervalForQPS, Cyclic.Position, Cyclic.OffsetOf, Examine, CooledBy, LocalInv, ReadsInv,
        LeastLoaded;
    var t := Apply(s, a);
    if a.Commit? { CommitTimely(s, a.c); }
    forall j: nat | j < |t.log| ensures EventOk(t, t.log[j]) {
      if j < |s.log| { assert EventOk(s, s.log[j]); }
    }
  }

  lemma GrantsKept(s: Pool, a: Action)
    requires Sane(s) && Enabled(s, a) && LocalInv(s) && ReadsInv(s) && HistoryInv(s) && GrantsInv(s)
    ensures GrantsInv(Apply(s, a))
  {
    hide Raised, Lowered, IntervalForQPS, Cyclic.Position, Cyclic.OffsetOf, Examine, LocalInv, ReadsInv, LeastLoaded,
      WholeWalk;
    var t := Apply(s, a);
    var n := |s.log|;
    if a.Commit? {
      CommitTimely(s, a.c);
      CompleteScanWalks(s, a.c);
    }
    forall i: nat, j: nat | i < j < |t.log| ensures Apart(t.log[i], t.log[j]) {
      if j < n { assert Apart(s.log[i], s.log[j]); } else { assert EventOk(s, s.log[i]); }
    }
    forall j: nat | j < |t.log| ensures Granted(t.o, |t.ups|, t.log, j) {
      if j < n { assert Granted(s.o, |s.ups|, s.log, j); }
    }
  }

  // ---- Conservation

  datatype Totals = Totals(reserved: nat, succeeded: nat, failed: nat, released: nat)

  function Counted(t: Totals, e: Event): Totals {
    match e
    case Reserve(_, _, _, _, _, _, _, _) => t.(reserved := t.reserved + 1)
    case Success(_, _) => t.(succeeded := t.succeeded + 1)
    case Fail(_, _, _, _) => t.(failed := t.failed + 1)
    case Release(_, _) => t.(released := t.released + 1)
  }

  /** What the history says happened to upstream u. */
  function Tally(log: seq<Event>, u: nat): Totals {
    if log == [] then Totals(0, 0, 0, 0)
    else
      var before := Tally(log[..|log| - 1], u);
      var e := log[|log| - 1];
      if e.upstream == u then Counted(before, e) else before
  }

  lemma TallyNext(log: seq<Event>, e: Event, u: nat)
    ensures Tally(log + [e], u) == if e.upstream == u then Counted(Tally(log, u), e) else Tally(log, u)
  {
    assert (log + [e])[..|log|] == log;
  }

  function Holds(me: Caller, u: nat): nat {
    if me.pc == Calling(u) then 1 else 0
  }

  /** How many callers have a request running on upstream u. */
  function Holders(callers: seq<Caller>, u: nat): nat {
    if callers == [] then 0 else Holds(callers[0], u) + Holders(callers[1..], u)
  }

  lemma {:induction false} HoldersUpdate(callers: seq<Caller>, c: nat, next: Caller, u: nat)
    requires c < |callers|
    ensures Holders(callers[c := next], u) == Holders(callers, u) - Holds(callers[c], u) + Holds(next, u)
  {
    var after := callers[c := next];
    if c == 0 {
      assert after[1..] == callers[1..];
    } else {
      HoldersUpdate(callers[1..], c - 1, next, u);
      assert after[1..] == callers[1..][c - 1 := next];
    }
  }

  lemma {:induction false} NobodyHolds(callers: seq<Caller>, u: nat)
    requires forall c: nat | c < |callers| :: !callers[c].pc.Calling?
    ensures Holders(callers, u) == 0
  {
    if callers != [] {
      assert forall c: nat | c < |callers[1..]| :: callers[1..][c] == callers[c + 1];
      NobodyHolds(callers[1..], u);
    }
  }

  ghost predicate Balanced(s: Pool, u: nat)
    requires u < |s.ups|
  {
    var total, up := Tally(s.log, u), s.ups[u];
    && up.inFlight == Holders(s.callers, u)
    && up.successes == total.succeeded && up.failures == total.failed
    && total.reserved == up.inFlight + total.succeeded + total.failed + total.released
  }

  ghost predicate CountInv(s: Pool) {
    forall u: nat | u < |s.ups| :: Balanced(s, u)
  }

  lemma CountKept(s: Pool, a: Action)
    requires Sane(s) && Enabled(s, a) && CountInv(s)
    ensures CountInv(Apply(s, a))
  {
    hide Valid, InRange, Raised, Lowered, IntervalForQPS, Cyclic.Position, Cyclic.OffsetOf, AvailableAt, Examine,
        Holders, Tally;
    var t := Apply(s, a);
    forall u: nat | u < |t.ups| ensures Balanced(t, u) {
      assert Balanced(s, u);
      if a.Tick? { assert t.ups == s.ups && t.callers == s.callers && t.log == s.log; }
      else { HoldersUpdate(s.callers, a.c, t.callers[a.c], u); }
      if |t.log| > |s.log| { TallyNext(s.log, t.log[|s.log|], u); }
    }
  }

  // ---- Every reachable state

  ghost predicate Inv(s: Pool) {
    Sane(s) && LockInv(s) && LocalInv(s) && ReadsInv(s) && HistoryInv(s) && GrantsInv(s) && CountInv(s)
  }

  lemma InvKept(s: Pool, a: Action)
    requires Inv(s) && Enabled(s, a)
    ensures Inv(Apply(s, a))
  {
    LockKept(s, a);
    LocalKept(s, a);
    ReadsKept(s, a);
    HistoryKept(s, a);
    GrantsKept(s, a);
    CountKept(s, a);
  }

  lemma LocalKept(s: Pool, a: Action)
    requires Sane(s) && Enabled(s, a) && LocalInv(s)
    ensures LocalInv(Apply(s, a))
  {
    CallersKept(s, a);
    ScansKept(s, a);
    SamePolicy(s, a);
  }

  lemma SamePolicy(s: Pool, a: Action)
    requires Sane(s) && Enabled(s, a)
    ensures var t := Apply(s, a); t.o == s.o && |t.ups| == |s.ups| && |t.callers| == |s.callers| && s.log <= t.log
  {
  }

  lemma {:induction false} InvStart(o: Options, n: nat, m: nat)
    requires Valid(o) && o.maxAttempts <= n
    ensures Inv(Start(o, n, m))
  {
    var s := Start(o, n, m);
    forall u: nat | u < n ensures Balanced(s, u) {
      NobodyHolds(s.callers, u);
    }
  }

  /** Every state of every run of a new pool satisfies the invariant, under the policy it started with. */
  lemma {:induction false} Reachable(s: Pool, run: seq<Action>)
    requires Inv(s) && Possible(s, run)
    ensures var t := Exec(s, run); Inv(t) && t.o == s.o && |t.ups| == |s.ups|
    decreases |run|
  {
    if run != [] {
      InvKept(s, run[0]);
      SamePolicy(s, run[0]);
      Reachable(Apply(s, run[0]), run[1..]);
    }
  }

  /** A state some run of a new pool reaches. */
  ghost predicate Reached(o: Options, n: nat, m: nat, run: seq<Action>, s: Pool) {
    Valid(o) && o.maxAttempts <= n && Possible(Start(o, n, m), run) && s == Exec(Start(o, n, m), run)
  }

  lemma ReachedInv(o: Options, n: nat, m: nat, run: seq<Action>, s: Pool)
    requires Reached(o, n, m, run, s)
    ensures Inv(s) && s.o == o && |s.ups| == n
  {
    InvStart(o, n, m);
    Reachable(Start(o, n, m), run);
  }

  /** Pacing: reservations of one upstream are apart by the interval of the rate at the earlier commit. */
  lemma Pacing(o: Options, n: nat, m: nat, run: seq<Action>, s: Pool, i: nat, j: nat)
    requires Reached(o, n, m, run, s)
    requires i < j < |s.log| && s.log[i].Reserve? && s.log[j].Reserve? && s.log[i].upstream == s.log[j].upstream
    ensures InRange(o, s.log[i].rate) && s.log[i].rate > 0.0
    ensures s.log[j].now - s.log[i].now >= IntervalForQPS(s.log[i].rate) >= IntervalForQPS(o.maxQPS)
  {
    ReachedInv(o, n, m, run, s);
    assert EventOk(s, s.log[i]) && Apart(s.log[i], s.log[j]);
    IntervalAntitone(s.log[i].rate, o.maxQPS);
  }

  /** The reservations of u whose time lies in [from, to]. */
  function InWindow(log: seq<Event>, u: nat, from: int, to: int): nat {
    if log == [] then 0
    else
      var e := log[|log| - 1];
      InWindow(log[..|log| - 1], u, from, to) + if e.Reserve? && e.upstream == u && from <= e.now <= to then 1 else 0
  }

  ghost predicate GapsAtLeast(log: seq<Event>, u: nat, gap: int) {
    forall i: nat, j: nat | i < j < |log| && log[i].Reserve? && log[j].Reserve?
        && log[i].upstream == log[j].upstream == u ::
      log[j].now >= log[i].now + gap
  }

  /** Narrowing a window loses nothing when every reservation lies before the new end. */
  lemma {:induction false} WindowNarrows(log: seq<Event>, u: nat, from: int, to: int, end: int)
    requires end <= to && forall i: nat | i < |log| && log[i].Reserve? && log[i].upstream == u :: log[i].now <= end
    ensures InWindow(log, u, from, to) == InWindow(log, u, from, end)
  {
    if log != [] {
      assert forall i: nat | i < |log| - 1 :: log[..|log| - 1][i] == log[i];
      WindowNarrows(log[..|log| - 1], u, from, to, end);
    }
  }

  /** How many moments, a gap apart, fit into a window of length w. */
  function Fitting(w: int, gap: int): (count: nat)
    requires gap > 0
  {
    if w < 0 then 0 else Cyclic.QuotientMonotone(0, w, gap); w / gap + 1
  }

  lemma {:induction false} WindowCount(log: seq<Event>, u: nat, gap: int, from: int, to: int)
    requires gap > 0 && GapsAtLeast(log, u, gap)
    ensures InWindow(log, u, from, to) <= Fitting(to - from, gap)
  {
    hide Fitting;
    if log != [] {
      var prefix, e := log[..|log| - 1], log[|log| - 1];
      assert forall i: nat | i < |prefix| :: prefix[i] == log[i];
      if e.Reserve? && e.upstream == u && from <= e.now <= to {
        WindowNarrows(prefix, u, from, to, e.now - gap);
        WindowCount(prefix, u, gap, from, e.now - gap);
        OneGapLess(e.now - from, to - from, gap);
      } else {
        WindowCount(prefix, u, gap, from, to);
      }
    }
  }

  lemma OneGapLess(x: int, y: int, gap: int)
    requires gap > 0 && 0 <= x <= y
    ensures Fitting(x - gap, gap) + 1 <= Fitting(y, gap)
  {
    Cyclic.QuotientMonotone(x, y, gap);
    Cyclic.QuotientMonotone(0, x, gap);
    if x >= gap { Cyclic.QuotientStep(x - gap, gap); }
  }

  /** In any window of length w an upstream is asked at most floor(w / interval of the ceiling) + 1 times. */
  lemma WindowBound(o: Options, n: nat, m: nat, run: seq<Action>, s: Pool, u: nat, from: int, w: nat)
    requires Reached(o, n, m, run, s)
    ensures InWindow(s.log, u, from, from + w) <= w / IntervalForQPS(o.maxQPS) + 1
  {
    var gap := IntervalForQPS(o.maxQPS);
    forall i: nat, j: nat | i < j < |s.log| && s.log[i].Reserve? && s.log[j].Reserve?
        && s.log[i].upstream == s.log[j].upstream == u
      ensures s.log[j].now >= s.log[i].now + gap
    {
      Pacing(o, n, m, run, s, i, j);
    }
    WindowCount(s.log, u, gap, from, from + w);
  }

  /** Conservation: what was reserved is in flight, fed back or released; in flight are exactly the calls being made. */
  lemma Conservation(o: Options, n: nat, m: nat, run: seq<Action>, s: Pool, u: nat)
    requires Reached(o, n, m, run, s) && u < n
    ensures |s.ups| == n
    ensures var t, up := Tally(s.log, u), s.ups[u];
            && t.reserved == up.inFlight + up.successes + up.failures + t.released
            && up.inFlight == Holders(s.callers, u) >= 0
            && InRange(o, up.rate)
  {
    ReachedInv(o, n, m, run, s);
    assert Balanced(s, u);
  }

  /** Once every lookup has returned nothing is in flight. */
  lemma QuietIsIdle(o: Options, n: nat, m: nat, run: seq<Action>, s: Pool, u: nat)
    requires Reached(o, n, m, run, s) && u < n
    requires forall c: nat | c < |s.callers| :: s.callers[c].pc.Returned?
    ensures |s.ups| == n && s.ups[u].inFlight == 0 && s.lock == None
  {
    ReachedInv(o, n, m, run, s);
    assert Balanced(s, u);
    NobodyHolds(s.callers, u);
  }

  /**
   * A reservation goes to the least loaded of the upstreams found free in one walk over all of them, except those this
   * lookup has asked; and never to one still cooling from a failure the walk knew.
   */
  lemma Selection(o: Options, n: nat, m: nat, run: seq<Action>, s: Pool, j: nat)
    requires Reached(o, n, m, run, s) && j < |s.log| && s.log[j].Reserve?
    ensures var e := s.log[j];
            && WholeWalk(e.scan, n) && e.upstream < n && e.upstream !in e.scan.asked
            && LeastLoaded(e.scan.seen, e.now, e.position) && e.scan.seen[e.position].upstream == e.upstream
            && e.inFlight <= e.scan.seen[e.position].inFlight
            && e.readAt <= j
            && forall i: nat | i < e.readAt && s.log[i].Fail? && s.log[i].upstream == e.upstream ::
                 e.now >= s.log[i].at + o.cooldown
  {
    ReachedInv(o, n, m, run, s);
    assert Granted(s.o, |s.ups|, s.log, j);
    var e := s.log[j];
    assert WalkedRightly(e.scan, n, e.position);
  }

  /**
   * No lookup asks an upstream twice, a lookup that exhausts its attempts joins that many errors, and one that
   * waits waits for somebody.
   */
  lemma Attempts(o: Options, n: nat, m: nat, run: seq<Action>, s: Pool, c: nat)
    requires Reached(o, n, m, run, s) && c < |s.callers|
    ensures var me := s.callers[c];
            && Distinct(me.called) && |me.called| == me.attempt <= o.maxAttempts
            && (me.pc == AtHead ==> me.attempt == |me.excluded| < o.maxAttempts)
            && (me.pc.Waiting? ==> me.pc.earliest.Some?)
            && (me.pc.Calling? ==> me.pc.upstream !in me.excluded)
            && (me.pc.Returned? && me.pc.ending.Some? && me.pc.ending.value.AllFailed? ==>
                  me.pc.ending.value.errors == me.attempt == o.maxAttempts)
  {
    ReachedInv(o, n, m, run, s);
    var me := s.callers[c];
    assert CallerOk(s.o, me);
    Cyclic.DistinctSize(me.called);
    if me.pc.Calling? { assert forall i :: 0 <= i < me.attempt - 1 ==> me.called[i] != me.called[me.attempt - 1]; }
  }
}
