/**
 * The caching resolver under every interleaving of its callers. A step is one atomic access: to the store, to the
 * clock, or to the table of flights. Reading the store, the clock, and removing what has expired are three steps.
 */
module CacheFlight {
  import opened Lookups
  import opened Dns
  import opened CacheTtl
  import opened CacheStore

  // ---- Flight keys

  function Digit(d: nat): char
    requires d < 10
  {
    ['0', '1', '2', '3', '4', '5', '6', '7', '8', '9'][d]
  }

  function Decimal(n: nat): string {
    if n < 10 then [Digit(n)] else Decimal(n / 10) + [Digit(n % 10)]
  }

  function FlightKey(key: Key): string {
    key.name + ":" + Decimal(key.qtype)
  }

  lemma {:induction false} NoColon(n: nat)
    ensures ':' !in Decimal(n)
  {
    if n >= 10 { NoColon(n / 10); }
  }

  lemma {:induction false} DecimalInjective(m: nat, n: nat)
    requires Decimal(m) == Decimal(n)
    ensures m == n
  {
    var s := Decimal(m);
    assert s[|s| - 1] == Digit(m % 10) == Digit(n % 10);
    if m >= 10 && n >= 10 {
      assert s[..|s| - 1] == Decimal(m / 10) == Decimal(n / 10);
      DecimalInjective(m / 10, n / 10);
    } else {
      DecimalNonEmpty(m / 10);
      DecimalNonEmpty(n / 10);
    }
  }

  lemma DecimalNonEmpty(n: nat)
    ensures |Decimal(n)| > 0
  {
  }

  /** Two questions never share a flight. */
  lemma FlightKeyInjective(a: Key, b: Key)
    requires FlightKey(a) == FlightKey(b)
    ensures a == b
  {
    hide Decimal;
    var x, y := Decimal(a.qtype), Decimal(b.qtype);
    var s := FlightKey(a);
    NoColon(a.qtype);
    NoColon(b.qtype);
    assert s[|s| - |x| - 1] == ':' && s[|s| - |y| - 1] == ':';
    assert |x| == |y|;
    assert a.name == s[..|s| - |x| - 1] == b.name;
    assert x == s[|s| - |x|..] == y;
    DecimalInjective(a.qtype, b.qtype);
  }

  // ---- The machine

  /** A stored reply, with the number of the flight that stored it. */
  datatype Entry = Entry(reply: Reply, stored: int, expiredAt: int, flight: nat)

  /** `via` is the event that a lookup's result comes from. */
  datatype Caller =
    | Idle
    | Timing(key: Key, found: Entry)   // has read the store, not yet the clock
    | Removing(key: Key)               // has seen the entry it read to be expired
    | Missed(key: Key)
    | Waiting(key: Key, flight: nat)
    | Leaving(key: Key, via: Event)

  datatype Stage =
    | Looking
    | Checking(found: Entry)
    | Dropping
    | Absent
    | Asking
    | Returned(reply: Reply)
    | Stamped(entry: Entry)
    | Done(via: Event)

  datatype Flight = Flight(id: nat, key: Key, stage: Stage)

  datatype Event =
    | Asked(flight: nat, key: Key, at: int)
    | Answered(flight: nat, key: Key, result: Result<Reply>)
    | Found(flight: nat, key: Key, entry: Entry, at: int)         // a hit of the second Get, inside the flight
    | Added(key: Key, entry: Entry)
    | Hit(key: Key, entry: Entry, at: int)                        // a hit of the first Get
    | Delivered(key: Key, source: Option<nat>, result: Result<Reply>) // what a lookup returned, from its flight if any

  /** The result that an event stands for. */
  function Outcome(e: Event): Result<Reply> {
    match e
    case Answered(_, _, result) => result
    case Found(_, _, entry, at) => Served(entry, at)
    case Hit(_, entry, at) => Served(entry, at)
    case _ => Result(None, None)
  }

  function Served(e: Entry, at: int): Result<Reply> {
    Result(Answer(Some(Stored(e.reply, e.expiredAt)), at), None)
  }

  /** `next` numbers the flights. */
  datatype System = System(
    options: Options, now: int, entries: map<Key, Entry>, callers: seq<Caller>, flights: map<string, Flight>, next: nat,
    history: seq<Event>)

  datatype Action =
    | Tick(passed: nat)
    | Evict(key: Key)
    | Call(c: nat, key: Key)
    | Time(c: nat)
    | Remove(c: nat)
    | Join(c: nat)
    | Return(c: nat)
    | Quit(c: nat)                     // the caller's context ends first
    | Look(f: string)
    | Check(f: string)
    | Drop(f: string)
    | Ask(f: string)
    | Respond(f: string, result: Result<Reply>)
    | Stamp(f: string)
    | Add(f: string)
    | End(f: string)

  predicate OfCaller(a: Action) {
    a.Call? || a.Time? || a.Remove? || a.Join? || a.Return? || a.Quit?
  }

  predicate CallerReady(pc: Caller, a: Action) {
    match a
    case Call(_, _) => pc.Idle?
    case Time(_) => pc.Timing?
    case Remove(_) => pc.Removing?
    case Join(_) => pc.Missed?
    case Return(_) => pc.Leaving?
    case Quit(_) => pc.Waiting? || (pc.Leaving? && !pc.via.Hit?)
    case _ => false
  }

  predicate FlightReady(stage: Stage, a: Action) {
    match a
    case Look(_) => stage.Looking?
    case Check(_) => stage.Checking?
    case Drop(_) => stage.Dropping?
    case Ask(_) => stage.Absent?
    case Respond(_, _) => stage.Asking?
    case Stamp(_) => stage.Returned?
    case Add(_) => stage.Stamped?
    case End(_) => stage.Done?
    case _ => false
  }

  predicate Enabled(s: System, a: Action) {
    if a.Tick? || a.Evict? then true
    else if OfCaller(a) then a.c < |s.callers| && CallerReady(s.callers[a.c], a)
    else a.f in s.flights && FlightReady(s.flights[a.f].stage, a)
  }

  function To(s: System, c: nat, pc: Caller): System
    requires c < |s.callers|
  {
    s.(callers := s.callers[c := pc])
  }

  function Fly(s: System, f: string, stage: Stage): System
    requires f in s.flights
  {
    s.(flights := s.flights[f := s.flights[f].(stage := stage)])
  }

  function Log(s: System, e: Event): System {
    s.(history := s.history + [e])
  }

  function Without(s: System, key: Key): System {
    s.(entries := s.entries - {key})
  }

  function CallerStep(s: System, a: Action): System
    requires Enabled(s, a) && OfCaller(a)
  {
    match a
    case Call(c, key) => To(s, c, if key in s.entries then Timing(key, s.entries[key]) else Missed(key))
    case Time(c) =>
      var Timing(key, found) := s.callers[c];
      var hit := Hit(key, found, s.now);
      if s.now < found.expiredAt then Log(To(s, c, Leaving(key, hit)), hit) else To(s, c, Removing(key))
    case Remove(c) => Without(To(s, c, Missed(s.callers[c].key)), s.callers[c].key)
    case Join(c) =>
      var key := s.callers[c].key;
      var f := FlightKey(key);
      if f in s.flights then To(s, c, Waiting(key, s.flights[f].id))
      else To(s, c, Waiting(key, s.next)).(flights := s.flights[f := Flight(s.next, key, Looking)], next := s.next + 1)
    case Return(c) =>
      var Leaving(key, via) := s.callers[c];
      Log(To(s, c, Idle), Delivered(key, if via.Hit? then None else FlightOf(via), Normalize(Outcome(via))))
    case Quit(c) => To(s, c, Idle)
  }

  function FlightOf(e: Event): Option<nat> {
    match e
    case Answered(flight, _, _) => Some(flight)
    case Found(flight, _, _, _) => Some(flight)
    case _ => None
  }

  /** The end of a flight gives its result to everybody waiting for it. */
  function Released(callers: seq<Caller>, flight: nat, via: Event): (after: seq<Caller>)
    ensures |after| == |callers|
  {
    seq(|callers|, c requires 0 <= c < |callers| => Handed(callers[c], flight, via))
  }

  function Handed(pc: Caller, flight: nat, via: Event): Caller {
    if pc.Waiting? && pc.flight == flight then Leaving(pc.key, via) else pc
  }

  function FlightStep(s: System, a: Action): System
    requires Enabled(s, a) && !OfCaller(a) && !a.Tick? && !a.Evict?
  {
    var Flight(id, key, stage) := s.flights[a.f];
    match a
    case Look(f) => Fly(s, f, if key in s.entries then Checking(s.entries[key]) else Absent)
    case Check(f) =>
      var found := Found(id, key, stage.found, s.now);
      if s.now < stage.found.expiredAt then Log(Fly(s, f, Done(found)), found) else Fly(s, f, Dropping)
    case Drop(f) => Without(Fly(s, f, Absent), key)
    case Ask(f) => Log(Fly(s, f, Asking), Asked(id, key, s.now))
    case Respond(f, result) =>
      var r := Normalize(result);
      var answered := Answered(id, key, r);
      Log(Fly(s, f, if r.err.Some? then Done(answered) else Returned(r.response.value)), answered)
    case Stamp(f) =>
      Fly(s, f, match Lifetime(s.options, stage.reply)
                case None => Done(Answered(id, key, Result(Some(stage.reply), None)))
                case Some(l) => Stamped(Entry(stage.reply, s.now, s.now + l, id)))
    case Add(f) =>
      var done := Done(Answered(id, key, Result(Some(stage.entry.reply), None)));
      Log(Fly(s, f, done).(entries := s.entries[key := stage.entry]), Added(key, stage.entry))
    case End(f) => s.(flights := s.flights - {f}, callers := Released(s.callers, id, stage.via))
  }

  function Apply(s: System, a: Action): System
    requires Enabled(s, a)
  {
    if a.Tick? then s.(now := s.now + a.passed)
    else if a.Evict? then Without(s, a.key)
    else if OfCaller(a) then CallerStep(s, a)
    else FlightStep(s, a)
  }

  predicate Possible(s: System, run: seq<Action>)
    decreases |run|
  {
    run == [] || (Enabled(s, run[0]) && Possible(Apply(s, run[0]), run[1..]))
  }

  function Exec(s: System, run: seq<Action>): System
    requires Possible(s, run)
    decreases |run|
  {
    if run == [] then s else Exec(Apply(s, run[0]), run[1..])
  }

  function Start(options: Options, now: int, callers: nat): System {
    System(options, now, map[], seq(callers, _ => Idle), map[], 0, [])
  }

  ghost predicate Reachable(s: System) {
    exists options, now, callers, run ::
      ValidOptions(options) && Possible(Start(options, now, callers), run)
          && s == Exec(Start(options, now, callers), run)
  }

  // ---- Flights and their keys

  ghost predicate Keyed(s: System) {
    forall f :: f in s.flights ==> f == FlightKey(s.flights[f].key)
  }

  /** Fetches of `key` and their ends alternate: whether one is under way. */
  predicate Open(history: seq<Event>, key: Key) {
    if history == [] then false
    else
      match history[|history| - 1]
      case Asked(_, k, _) => k == key || Open(history[..|history| - 1], key)
      case Answered(_, k, _) => k != key && Open(history[..|history| - 1], key)
      case _ => Open(history[..|history| - 1], key)
  }

  predicate Fetching(s: System, key: Key) {
    FlightKey(key) in s.flights && s.flights[FlightKey(key)].stage.Asking?
  }

  ghost predicate Alternates(history: seq<Event>) {
    forall i: nat :: i < |history| && history[i].Asked? ==> !Open(history[..i], history[i].key)
  }

  ghost predicate Orderly(s: System) {
    Keyed(s) && Alternates(s.history) && forall key :: Open(s.history, key) <==> Fetching(s, key)
  }

  lemma OpenAfter(history: seq<Event>, e: Event, key: Key)
    ensures Open(history + [e], key) ==
            match e
            case Asked(_, k, _) => k == key || Open(history, key)
            case Answered(_, k, _) => k != key && Open(history, key)
            case _ => Open(history, key)
  {
    assert (history + [e])[..|history|] == history;
  }

  lemma AlternatesAfter(history: seq<Event>, e: Event)
    requires Alternates(history) && (e.Asked? ==> !Open(history, e.key))
    ensures Alternates(history + [e])
  {
    hide Open;
    forall i: nat | i < |history + [e]| && (history + [e])[i].Asked?
      ensures !Open((history + [e])[..i], (history + [e])[i].key)
    {
      assert (history + [e])[..i] == history[..i];
      assert history[..|history|] == history;
    }
  }

  lemma OrderlyKept(s: System, a: Action)
    requires Orderly(s) && Enabled(s, a)
    ensures Orderly(Apply(s, a))
  {
    hide Open, FlightKey, Alternates, Lifetime;
    var next := Apply(s, a);
    if next.history != s.history {
      var e := next.history[|s.history|];
      assert next.history == s.history + [e];
      if e.Asked? {
        assert s.flights[a.f].key == e.key && a.f == FlightKey(e.key);
        assert !Fetching(s, e.key) <==> !Open(s.history, e.key);
      }
      AlternatesAfter(s.history, e);
      forall key { OpenAfter(s.history, e, key); }
    }
    forall key ensures Open(next.history, key) <==> Fetching(next, key) {
      assert Open(s.history, key) <==> Fetching(s, key);
      if FlightKey(key) in s.flights && FlightKey(s.flights[FlightKey(key)].key) == FlightKey(key) {
        FlightKeyInjective(s.flights[FlightKey(key)].key, key);
      }
    }
  }

  // ---- A stored reply and the fetches after it

  predicate CallerSafe(pc: Caller, key: Key, expiry: int) {
    pc != Removing(key) && (pc.Timing? && pc.key == key ==> expiry <= pc.found.expiredAt)
  }

  predicate StageSafe(stage: Stage, expiry: int) {
    stage.Looking? || stage.Done? || (stage.Checking? && expiry <= stage.found.expiredAt)
  }

  /** Nobody is about to remove the entry of `key`, which lives until `expiry`, on account of an older one. */
  ghost predicate Guarded(s: System, key: Key, expiry: int) {
    s.now < expiry ==>
      && key in s.entries && s.entries[key].expiredAt == expiry
      && (forall c :: 0 <= c < |s.callers| ==> CallerSafe(s.callers[c], key, expiry))
      && (FlightKey(key) in s.flights ==> StageSafe(s.flights[FlightKey(key)].stage, expiry))
  }

  lemma KeyedKept(s: System, a: Action)
    requires Keyed(s) && Enabled(s, a)
    ensures Keyed(Apply(s, a))
  {
    hide FlightKey, Lifetime;
  }

  lemma GuardKeptByFlight(s: System, a: Action, key: Key, expiry: int)
    requires Keyed(s) && Guarded(s, key, expiry) && Enabled(s, a) && a != Evict(key) && !OfCaller(a)
    ensures Guarded(Apply(s, a), key, expiry)
  {
    hide FlightKey, Lifetime, CallerStep;
    if !a.Tick? && !a.Evict? && a.f == FlightKey(key) { FlightKeyInjective(s.flights[a.f].key, key); }
  }

  lemma GuardKeptByCaller(s: System, a: Action, key: Key, expiry: int)
    requires Keyed(s) && Guarded(s, key, expiry) && Enabled(s, a) && OfCaller(a)
    ensures Guarded(Apply(s, a), key, expiry)
  {
    hide FlightKey, Lifetime, FlightStep;
  }

  lemma GuardKept(s: System, a: Action, key: Key, expiry: int)
    requires Keyed(s) && Guarded(s, key, expiry) && Enabled(s, a) && a != Evict(key)
    ensures Guarded(Apply(s, a), key, expiry)
  {
    hide FlightKey, Guarded, Apply, Enabled;
    if OfCaller(a) { GuardKeptByCaller(s, a, key, expiry); } else { GuardKeptByFlight(s, a, key, expiry); }
  }

  /** After `run`, which does not evict `key`, the resolver is about to be asked for it before `expiry`. */
  predicate AsksEarly(s: System, key: Key, expiry: int, run: seq<Action>) {
    && Possible(s, run) && Evict(key) !in run
    && var end := Exec(s, run);
       FlightKey(key) in end.flights && end.flights[FlightKey(key)].key == key
           && end.flights[FlightKey(key)].stage.Absent? && end.now < expiry
  }

  lemma {:induction false} GuardHolds(s: System, key: Key, expiry: int, run: seq<Action>)
    requires Keyed(s) && Guarded(s, key, expiry) && Possible(s, run) && Evict(key) !in run
    ensures !AsksEarly(s, key, expiry, run)
    decreases |run|
  {
    hide FlightKey, Apply, Enabled;
    if run != [] {
      KeyedKept(s, run[0]);
      GuardKept(s, run[0], key, expiry);
      GuardHolds(Apply(s, run[0]), key, expiry, run[1..]);
    }
  }

  lemma AsksLater(s: System, a: Action, key: Key, expiry: int, run: seq<Action>)
    requires Enabled(s, a) && a != Evict(key) && AsksEarly(Apply(s, a), key, expiry, run)
    ensures AsksEarly(s, key, expiry, [a] + run)
  {
    hide FlightKey, Apply, Enabled;
    assert ([a] + run)[1..] == run;
  }

  /** A caller that is removing the entry of `key` brings about an early fetch. */
  lemma RemovalAsks(s: System, c: nat, key: Key, expiry: int) returns (run: seq<Action>)
    requires c < |s.callers| && s.callers[c] == Removing(key) && s.now < expiry
    requires FlightKey(key) in s.flights && s.flights[FlightKey(key)].key == key
        && s.flights[FlightKey(key)].stage.Done?
    ensures AsksEarly(s, key, expiry, run)
  {
    hide FlightKey, Lifetime;
    var f := FlightKey(key);
    var s1 := Apply(s, Remove(c));
    var s2 := Apply(s1, End(f));
    var s3 := Apply(s2, Join(c));
    var s4 := Apply(s3, Look(f));
    run := [];
    AsksLater(s3, Look(f), key, expiry, run);
    run := [Look(f)] + run;
    AsksLater(s2, Join(c), key, expiry, run);
    run := [Join(c)] + run;
    AsksLater(s1, End(f), key, expiry, run);
    run := [End(f)] + run;
    AsksLater(s, Remove(c), key, expiry, run);
    run := [Remove(c)] + run;
  }

  /** So does one that has yet to find the older entry it read expired. */
  lemma StaleReadAsks(s: System, c: nat, key: Key, expiry: int) returns (run: seq<Action>)
    requires c < |s.callers| && s.callers[c].Timing? && s.callers[c].key == key && s.callers[c].found.expiredAt < expiry
    requires s.now < expiry && FlightKey(key) in s.flights && s.flights[FlightKey(key)].key == key
        && s.flights[FlightKey(key)].stage.Done?
    ensures AsksEarly(s, key, expiry, run)
  {
    hide FlightKey, Lifetime, AsksEarly;
    var old' := s.callers[c].found.expiredAt;
    var wait: nat := if old' <= s.now then 0 else old' - s.now;
    var s1 := Apply(s, Tick(wait));
    var s2 := Apply(s1, Time(c));
    run := RemovalAsks(s2, c, key, expiry);
    AsksLater(s1, Time(c), key, expiry, run);
    run := [Time(c)] + run;
    AsksLater(s, Tick(wait), key, expiry, run);
    run := [Tick(wait)] + run;
  }

  /**
   * A reply stored for some lifetime keeps every later fetch of its key, barring eviction, outside that lifetime:
   * exactly when no caller is still at work on an older, shorter-lived entry that it read before.
   */
  lemma OneFetchPerLifetime(s: System, f: string)
    requires Reachable(s) && Enabled(s, Add(f))
    requires var entry := s.flights[f].stage.entry; s.now < entry.expiredAt
    ensures var key, expiry := s.flights[f].key, s.flights[f].stage.entry.expiredAt;
      (forall run :: !AsksEarly(Apply(s, Add(f)), key, expiry, run)) <==>
      (forall c :: 0 <= c < |s.callers| ==> CallerSafe(s.callers[c], key, expiry))
  {
    hide FlightKey, AsksEarly, Lifetime, Reachable, Genuine, Open;
    var key, expiry := s.flights[f].key, s.flights[f].stage.entry.expiredAt;
    var next := Apply(s, Add(f));
    ReachableSound(s);
    KeyedKept(s, Add(f));
    if forall c :: 0 <= c < |s.callers| ==> CallerSafe(s.callers[c], key, expiry) {
      assert Guarded(next, key, expiry);
      forall run ensures !AsksEarly(next, key, expiry, run) { NeverEarly(next, key, expiry, run); }
    } else {
      var c: nat :| c < |s.callers| && !CallerSafe(s.callers[c], key, expiry);
      var run;
      if s.callers[c].Removing? {
        run := RemovalAsks(next, c, key, expiry);
      } else {
        run := StaleReadAsks(next, c, key, expiry);
      }
    }
  }

  lemma NeverEarly(s: System, key: Key, expiry: int, run: seq<Action>)
    requires Keyed(s) && Guarded(s, key, expiry)
    ensures !AsksEarly(s, key, expiry, run)
  {
    hide FlightKey, Exec, Guarded;
    if Possible(s, run) && Evict(key) !in run { GuardHolds(s, key, expiry, run); }
  }

  // ---- Whole runs

  lemma {:induction false} ExecAppend(s: System, run: seq<Action>, a: Action)
    requires Possible(s, run) && Enabled(Exec(s, run), a)
    ensures Possible(s, run + [a]) && Exec(s, run + [a]) == Apply(Exec(s, run), a)
    decreases |run|
  {
    hide Apply, Enabled;
    if run == [] {
      assert (run + [a])[1..] == [];
    } else {
      ExecAppend(Apply(s, run[0]), run[1..], a);
      assert (run + [a])[1..] == run[1..] + [a];
    }
  }

  lemma ReachOn(s: System, a: Action) returns (next: System)
    requires Reachable(s) && Enabled(s, a)
    ensures next == Apply(s, a) && Reachable(next)
  {
    hide Apply, Enabled, Start, Possible, Exec;
    var options, now, callers, run :|
      ValidOptions(options) && Possible(Start(options, now, callers), run)
          && s == Exec(Start(options, now, callers), run);
    ExecAppend(Start(options, now, callers), run, a);
    next := Apply(s, a);
  }

  predicate LaterFetched(history: seq<Event>, i: nat)
    requires i < |history|
  {
    match history[i]
    case Added(key, e) => Answered(e.flight, key, Result(Some(e.reply), None)) in history[..i]
    case Hit(key, e, at) => Added(key, e) in history[..i] && e.stored <= at < e.expiredAt
    case Found(_, key, e, at) => Added(key, e) in history[..i] && e.stored <= at < e.expiredAt
    case _ => true
  }

  predicate Lives(options: Options, e: Entry) {
    Lifetime(options, e.reply) == Some(e.expiredAt - e.stored)
  }

  predicate StageGenuine(s: System, id: nat, key: Key, stage: Stage) {
    match stage
    case Checking(e) => Added(key, e) in s.history
    case Returned(reply) => Answered(id, key, Result(Some(reply), None)) in s.history
    case Stamped(e) =>
      && e.flight == id && Answered(id, key, Result(Some(e.reply), None)) in s.history
      && Lives(s.options, e) && e.stored <= s.now
    case _ => true
  }

  predicate FlightGenuine(s: System, flight: Flight) {
    StageGenuine(s, flight.id, flight.key, flight.stage)
  }

  predicate EventGenuine(s: System, e: Event) {
    e.Added? ==> Lives(s.options, e.entry) && e.entry.stored <= s.now
  }

  /** Whatever is stored, or on its way to or from the store, was once answered without an error. */
  ghost predicate Genuine(s: System) {
    && (forall key :: key in s.entries ==> Added(key, s.entries[key]) in s.history)
    && (forall c :: 0 <= c < |s.callers| && s.callers[c].Timing? ==>
          Added(s.callers[c].key, s.callers[c].found) in s.history)
    && (forall f :: f in s.flights ==> FlightGenuine(s, s.flights[f]))
    && (forall e :: e in s.history ==> EventGenuine(s, e))
    && (forall i: nat :: i < |s.history| ==> LaterFetched(s.history, i))
  }

  lemma LaterFetchedAfter(history: seq<Event>, e: Event)
    requires forall i: nat :: i < |history| ==> LaterFetched(history, i)
    requires e.Added? ==> Answered(e.entry.flight, e.key, Result(Some(e.entry.reply), None)) in history
    requires e.Hit? || e.Found? ==> Added(e.key, e.entry) in history && e.entry.stored <= e.at < e.entry.expiredAt
    ensures forall i: nat :: i < |history + [e]| ==> LaterFetched(history + [e], i)
  {
    forall i: nat | i < |history + [e]| ensures LaterFetched(history + [e], i) {
      assert (history + [e])[..i] == history[..i];
      if i < |history| { assert LaterFetched(history, i); } else { assert history[..i] == history; }
    }
  }

  lemma GenuineKeptByCaller(s: System, a: Action)
    requires Genuine(s) && Enabled(s, a) && OfCaller(a)
    ensures Genuine(Apply(s, a))
  {
    hide FlightKey, Lives, LaterFetched, FlightStep;
    var next := Apply(s, a);
    if next.history != s.history {
      var e := next.history[|s.history|];
      if e.Hit? { assert EventGenuine(s, Added(e.key, e.entry)); }
      LaterFetchedAfter(s.history, e);
      assert next.history == s.history + [e];
    }
  }

  /** The steps of a flight that go into the history. */
  predicate Logs(s: System, a: Action)
    requires Enabled(s, a)
  {
    a.Ask? || a.Respond? || a.Add? || (a.Check? && s.now < s.flights[a.f].stage.found.expiredAt)
  }

  lemma GenuineKeptSilently(s: System, a: Action)
    requires Genuine(s) && Enabled(s, a) && !OfCaller(a) && !Logs(s, a)
    ensures Genuine(Apply(s, a))
  {
    hide FlightKey, LaterFetched, CallerStep, Lifetime;
    if !a.Tick? && !a.Evict? { assert FlightGenuine(s, s.flights[a.f]); }
  }

  lemma GenuineKeptByFlight(s: System, a: Action)
    requires Genuine(s) && Enabled(s, a) && !OfCaller(a) && Logs(s, a)
    ensures Genuine(Apply(s, a))
  {
    hide FlightKey, LaterFetched, CallerStep, Lives;
    var flight := s.flights[a.f];
    assert FlightGenuine(s, flight);
    if a.Check? { assert EventGenuine(s, Added(flight.key, flight.stage.found)); }
    var next := Apply(s, a);
    LaterFetchedAfter(s.history, next.history[|s.history|]);
    assert next.history == s.history + [next.history[|s.history|]];
  }

  lemma GenuineKept(s: System, a: Action)
    requires Genuine(s) && Enabled(s, a)
    ensures Genuine(Apply(s, a))
  {
    hide Genuine, Apply, Enabled;
    if OfCaller(a) {
      GenuineKeptByCaller(s, a);
    } else if Logs(s, a) {
      GenuineKeptByFlight(s, a);
    } else {
      GenuineKeptSilently(s, a);
    }
  }

  lemma {:induction false} RunSound(s: System, run: seq<Action>)
    requires Orderly(s) && Genuine(s) && Possible(s, run)
    ensures Orderly(Exec(s, run)) && Genuine(Exec(s, run))
    decreases |run|
  {
    hide Orderly, Genuine, Apply, Enabled;
    if run != [] {
      OrderlyKept(s, run[0]);
      GenuineKept(s, run[0]);
      RunSound(Apply(s, run[0]), run[1..]);
    }
  }

  lemma ReachableSound(s: System)
    requires Reachable(s)
    ensures Orderly(s) && Genuine(s) && ValidOptions(s.options)
  {
    hide Exec, Possible;
    var options, now, callers, run :|
      ValidOptions(options) && Possible(Start(options, now, callers), run)
          && s == Exec(Start(options, now, callers), run);
    RunSound(Start(options, now, callers), run);
    OptionsKept(Start(options, now, callers), run);
  }

  lemma {:induction false} OptionsKept(s: System, run: seq<Action>)
    requires Possible(s, run)
    ensures Exec(s, run).options == s.options
    decreases |run|
  {
    hide Enabled, FlightKey, Lifetime;
    if run != [] { OptionsKept(Apply(s, run[0]), run[1..]); }
  }

  lemma {:induction false} StaysOpen(history: seq<Event>, i: nat, n: nat)
    requires i < n <= |history| && history[i].Asked?
    requires forall m: nat :: i < m < n ==> !(history[m].Answered? && history[m].key == history[i].key)
    ensures Open(history[..n], history[i].key)
    decreases n
  {
    assert history[..n][..n - 1] == history[..n - 1] && history[..n][n - 1] == history[n - 1];
    if i < n - 1 { StaysOpen(history, i, n - 1); }
  }

  /** Between two fetches for one question the first has been answered: never two at a time. */
  lemma OneFetchAtATime(s: System, i: nat, j: nat)
    requires Reachable(s)
    requires i < j < |s.history| && s.history[i].Asked? && s.history[j].Asked? && s.history[i].key == s.history[j].key
    ensures exists m: nat :: i < m < j && s.history[m].Answered? && s.history[m].key == s.history[i].key
  {
    hide Open;
    ReachableSound(s);
    if forall m: nat :: i < m < j ==> !(s.history[m].Answered? && s.history[m].key == s.history[i].key) {
      StaysOpen(s.history, i, j);
    }
  }

  /** Whatever is stored was answered before, to the flight that stores it and without an error. */
  lemma AddedWereAnswered(s: System, i: nat) returns (answered: nat)
    requires Reachable(s) && i < |s.history| && s.history[i].Added?
    ensures var Added(key, e) := s.history[i];
      && answered < i && s.history[answered] == Answered(e.flight, key, Result(Some(e.reply), None))
      && Lifetime(s.options, e.reply) == Some(e.expiredAt - e.stored)
  {
    hide Lifetime;
    ReachableSound(s);
    var Added(key, e) := s.history[i];
    assert LaterFetched(s.history, i) && EventGenuine(s, s.history[i]);
    answered :| 0 <= answered < i && s.history[..i][answered] == Answered(e.flight, key, Result(Some(e.reply), None));
  }

  /** A hit, of either Get, serves an entry stored before under the same key, within its lifetime. */
  lemma HitsWereAdded(s: System, i: nat) returns (added: nat)
    requires Reachable(s) && i < |s.history| && (s.history[i].Hit? || s.history[i].Found?)
    ensures var e := s.history[i].entry;
      added < i && s.history[added] == Added(s.history[i].key, e) && e.stored <= s.history[i].at < e.expiredAt
  {
    hide Lifetime;
    ReachableSound(s);
    var key, e := s.history[i].key, s.history[i].entry;
    assert LaterFetched(s.history, i);
    added :| 0 <= added < i && s.history[..i][added] == Added(key, e);
  }

  // ---- The race between removing and storing

  /** A flight that finds nothing asks, and stamps the reply it gets. */
  lemma FlightFetches(s: System, f: string, id: nat, key: Key, reply: Reply, l: int) returns (end: System)
    requires Reachable(s) && key !in s.entries && s.flights == map[f := Flight(id, key, Absent)]
        && Lifetime(s.options, reply) == Some(l)
    ensures Reachable(end) && end.options == s.options && end.now == s.now && end.entries == s.entries
        && end.callers == s.callers
    ensures end.next == s.next && end.flights == map[f := Flight(id, key, Stamped(Entry(reply, s.now, s.now + l, id)))]
  {
    hide FlightKey, Reachable, Lifetime, CallerStep;
    var s1 := ReachOn(s, Ask(f));
    var s2 := ReachOn(s1, Respond(f, Result(Some(reply), None)));
    end := ReachOn(s2, Stamp(f));
  }

  /** A lookup that misses runs through to the moment before its reply is stored. */
  lemma Refetches(s: System, c: nat, key: Key, reply: Reply, l: int) returns (end: System)
    requires Reachable(s) && c < |s.callers| && s.callers[c] == Missed(key)
    requires key !in s.entries && s.flights == map[] && Lifetime(s.options, reply) == Some(l)
    ensures Reachable(end) && end.options == s.options && end.now == s.now && end.entries == s.entries
    ensures end.callers == s.callers[c := Waiting(key, s.next)] && end.next == s.next + 1
    ensures end.flights == map[FlightKey(key) := Flight(s.next, key, Stamped(Entry(reply, s.now, s.now + l, s.next)))]
  {
    hide FlightKey, Reachable, Lifetime;
    var f := FlightKey(key);
    var s1 := ReachOn(s, Join(c));
    var s2 := ReachOn(s1, Look(f));
    end := FlightFetches(s2, f, s.next, key, reply, l);
  }

  /** Once stored, with its flight over, the reply is all that is left of the lookup. */
  lemma StoredAndGone(s: System, f: string, key: Key, entry: Entry) returns (end: System)
    requires Reachable(s) && f == FlightKey(key) && |s.callers| == 2 && s.callers[0] == Waiting(key, 0)
        && s.entries == map[]
    requires s.flights == map[f := Flight(0, key, Stamped(entry))] && s.callers[1].Idle? && s.next == 1
    ensures Reachable(end) && end.options == s.options && end.now == s.now
    ensures end.entries == map[key := entry] && end.flights == map[] && end.callers == [Idle, Idle] && end.next == 1
  {
    hide FlightKey, Reachable, Lifetime;
    var s1 := ReachOn(s, Add(f));
    var s2 := ReachOn(s1, End(f));
    end := ReachOn(s2, Return(0));
  }

  /** A caller reads an entry, which expires; another finds it expired and removes it. */
  lemma ReadAndRemoved(s: System, key: Key, entry: Entry) returns (end: System)
    requires Reachable(s) && s.entries == map[key := entry] && s.flights == map[] && s.callers == [Idle, Idle]
    requires entry.expiredAt == s.now + 1 && s.next == 1
    ensures Reachable(end) && end.options == s.options && end.now == s.now + 1 && end.next == 1
    ensures end.entries == map[] && end.flights == map[] && end.callers == [Missed(key), Timing(key, entry)]
  {
    hide FlightKey, Reachable, Lifetime;
    var s1 := ReachOn(s, Tick(1));
    var s2 := ReachOn(s1, Call(1, key));
    var s3 := ReachOn(s2, Call(0, key));
    var s4 := ReachOn(s3, Time(0));
    end := ReachOn(s4, Remove(0));
  }

  /** A caller can come to store a reply while another is still to remove its expired predecessor. */
  lemma StaleReaderHappens() returns (s: System, f: string)
    ensures Reachable(s) && Enabled(s, Add(f)) && s.now < s.flights[f].stage.entry.expiredAt
    ensures var key, expiry := s.flights[f].key, s.flights[f].stage.entry.expiredAt;
            exists c :: 0 <= c < |s.callers| && !CallerSafe(s.callers[c], key, expiry)
  {
    hide FlightKey, Reachable, Lifetime;
    var options, key := Options(1, 0, 0), Key("example.org.", 1);
    var reply := Reply(Head(RCODE_SERVFAIL, false, false, [1]), [], [], []);
    f := FlightKey(key);
    FailureLivesOnce(options, reply);
    var s0 := Start(options, 0, 2);
    ReachableStart(options, 0, 2);
    var s1 := ReachOn(s0, Call(0, key));
    var s2 := Refetches(s1, 0, key, reply, 1);
    var s3 := StoredAndGone(s2, f, key, Entry(reply, 0, 1, 0));
    var s4 := ReadAndRemoved(s3, key, Entry(reply, 0, 1, 0));
    s := Refetches(s4, 0, key, reply, 1);
    assert s.callers[1] == Timing(key, Entry(reply, 0, 1, 0));
    assert !CallerSafe(s.callers[1], key, 2);
  }

  /** So a second fetch can fall inside the lifetime of a stored reply that nothing evicted. */
  lemma FetchedTwice() returns (s: System, f: string, run: seq<Action>)
    ensures Reachable(s) && Enabled(s, Add(f))
    ensures AsksEarly(Apply(s, Add(f)), s.flights[f].key, s.flights[f].stage.entry.expiredAt, run)
  {
    hide FlightKey, Reachable, AsksEarly, CallerSafe;
    s, f := StaleReaderHappens();
    OneFetchPerLifetime(s, f);
    run :| AsksEarly(Apply(s, Add(f)), s.flights[f].key, s.flights[f].stage.entry.expiredAt, run);
  }

  lemma ReachableStart(options: Options, now: int, callers: nat)
    requires ValidOptions(options)
    ensures Reachable(Start(options, now, callers))
  {
    assert Possible(Start(options, now, callers), [])
        && Exec(Start(options, now, callers), []) == Start(options, now, callers);
  }

  lemma FailureLivesOnce(options: Options, reply: Reply)
    requires options == Options(1, 0, 0) && reply == Reply(Head(RCODE_SERVFAIL, false, false, [1]), [], [], [])
    ensures Lifetime(options, reply) == Some(1)
  {
    assert AllRecords(reply) == [];
  }
}
