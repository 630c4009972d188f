/**
 * What the caching resolver hands to its callers: from their own hit, or from the one result of the flight they
 * joined.
 */
module CacheDelivery {
  import opened Lookups
  import opened Dns
  import opened CacheTtl
  import opened CacheStore
  import opened CacheFlight

  /** The event settles its flight's result. */
  predicate Settles(e: Event) {
    e.Answered? || e.Found?
  }

  predicate SettlesFor(e: Event, id: nat, key: Key) {
    Settles(e) && e.flight == id && e.key == key
  }

  /** The event a flight's result comes from, once there is one. */
  function Source(flight: Flight): Option<Event> {
    match flight.stage
    case Returned(reply) => Some(Answered(flight.id, flight.key, Result(Some(reply), None)))
    case Stamped(entry) => Some(Answered(flight.id, flight.key, Result(Some(entry.reply), None)))
    case Done(via) => Some(via)
    case _ => None
  }

  /** A flight's result is that of its own event, and before it has one there is no such event. */
  ghost predicate FlightOk(s: System, flight: Flight) {
    && flight.id < s.next
    && match Source(flight)
       case Some(e) => e in s.history && SettlesFor(e, flight.id, flight.key)
       case None => forall e :: e in s.history && Settles(e) ==> e.flight != flight.id
  }

  ghost predicate CallerOk(s: System, pc: Caller) {
    match pc
    case Waiting(key, id) =>
      FlightKey(key) in s.flights && s.flights[FlightKey(key)].id == id && s.flights[FlightKey(key)].key == key
    case Leaving(key, via) => via in s.history && via.key == key && (via.Hit? || Settles(via))
    case _ => true
  }

  ghost predicate EventOk(s: System, e: Event) {
    && (Settles(e) ==> e.flight < s.next)
    && (e.Answered? ==> Normalize(e.result) == e.result)
  }

  /** A delivered result comes from an earlier event of the same key, that of the flight named if there is one. */
  ghost predicate DeliveredOk(history: seq<Event>, i: nat)
    requires i < |history|
  {
    history[i].Delivered? ==> exists j: nat :: j < i && Delivers(history[j], history[i])
  }

  predicate Delivers(e: Event, d: Event)
    requires d.Delivered?
  {
    && (e.Hit? || Settles(e)) && e.key == d.key && Normalize(Outcome(e)) == d.result
    && d.source == if e.Hit? then None else Some(e.flight)
  }

  /** No flight is settled twice. */
  ghost predicate SettledOnce(history: seq<Event>) {
    forall i: nat, j: nat | i < j < |history| && Settles(history[i]) && Settles(history[j]) ::
      history[i].flight != history[j].flight
  }

  ghost predicate FlightsOk(s: System) {
    && (forall f :: f in s.flights ==> FlightOk(s, s.flights[f]))
    && (forall f, g :: f in s.flights && g in s.flights && s.flights[f].id == s.flights[g].id ==> f == g)
  }

  ghost predicate CallersOk(s: System) {
    forall c :: 0 <= c < |s.callers| ==> CallerOk(s, s.callers[c])
  }

  ghost predicate HistoryOk(s: System) {
    && (forall e :: e in s.history ==> EventOk(s, e))
    && (forall i: nat :: i < |s.history| ==> DeliveredOk(s.history, i))
    && SettledOnce(s.history)
  }

  ghost predicate Handing(s: System) {
    Keyed(s) && FlightsOk(s) && CallersOk(s) && HistoryOk(s)
  }

  lemma HistoryGrows(history: seq<Event>, e: Event)
    requires forall i: nat :: i < |history| ==> DeliveredOk(history, i)
    requires SettledOnce(history) && (Settles(e) ==> forall d :: d in history && Settles(d) ==> d.flight != e.flight)
    requires e.Delivered? ==> exists d :: d in history && Delivers(d, e)
    ensures SettledOnce(history + [e])
    ensures forall i: nat :: i < |history + [e]| ==> DeliveredOk(history + [e], i)
  {
    var after := history + [e];
    forall i: nat | i < |after| && after[i].Delivered? ensures DeliveredOk(after, i) {
      if i < |history| {
        assert DeliveredOk(history, i);
        var j: nat :| j < i && Delivers(history[j], history[i]);
        assert Delivers(after[j], after[i]);
      } else {
        var d :| d in history && Delivers(d, e);
        var j :| 0 <= j < |history| && history[j] == d;
        assert Delivers(after[j], after[i]);
      }
    }
    forall i: nat, j: nat | i < j < |after| && Settles(after[i]) && Settles(after[j])
      ensures after[i].flight != after[j].flight
    {
      if j == |history| { assert history[i] in history; }
    }
  }

  /** What a step adds to the history, if anything. */
  function News(s: System, a: Action): seq<Event>
    requires Enabled(s, a)
  {
    if |Apply(s, a).history| > |s.history| then [Apply(s, a).history[|s.history|]] else []
  }

  /** A step logs at most one event; it settles the acting flight, or delivers what the acting caller leaves with. */
  lemma NewsMeans(s: System, a: Action)
    requires Enabled(s, a)
    ensures Apply(s, a).history == s.history + News(s, a) && s.next <= Apply(s, a).next
    ensures forall e :: e in News(s, a) && Settles(e) ==>
              !OfCaller(a) && !a.Tick? && !a.Evict? && Source(s.flights[a.f]).None?
              && SettlesFor(e, s.flights[a.f].id, s.flights[a.f].key) && Normalize(Outcome(e)) == Outcome(e)
    ensures forall e :: e in News(s, a) && e.Delivered? ==>
              a.Return? && s.callers[a.c].Leaving? && e.key == s.callers[a.c].key
              && ((s.callers[a.c].via.Hit? || Settles(s.callers[a.c].via)) && s.callers[a.c].via.key == e.key ==>
                    Delivers(s.callers[a.c].via, e))
  {
    hide FlightKey, Lifetime, Aged, DurationToTTL;
  }

  lemma HistoryKept(s: System, a: Action)
    requires Handing(s) && Enabled(s, a)
    ensures HistoryOk(Apply(s, a))
  {
    hide FlightKey, Apply, DeliveredOk, SettledOnce, Outcome, Delivers, News;
    NewsMeans(s, a);
    var next := Apply(s, a);
    forall e | e in s.history ensures EventOk(next, e) { assert EventOk(s, e); }
    if News(s, a) != [] {
      var e := News(s, a)[0];
      assert e in News(s, a) && News(s, a) == [e] by { OneEvent(s, a); }
      if Settles(e) { assert FlightOk(s, s.flights[a.f]); }
      if e.Delivered? { assert CallerOk(s, s.callers[a.c]); }
      NewEventOk(s, a, e);
      HistoryGrows(s.history, e);
    } else {
      assert s.history + [] == s.history;
    }
  }

  lemma OneEvent(s: System, a: Action)
    requires Enabled(s, a)
    ensures |News(s, a)| <= 1
  {
  }

  lemma NewEventOk(s: System, a: Action, e: Event)
    requires Handing(s) && Enabled(s, a) && e in News(s, a)
    ensures EventOk(Apply(s, a), e)
  {
    hide FlightKey, Apply, News;
    NewsMeans(s, a);
    if Settles(e) { assert FlightOk(s, s.flights[a.f]); }
  }

  lemma ActorKept(s: System, a: Action)
    requires Handing(s) && Enabled(s, a) && OfCaller(a)
    ensures CallerOk(Apply(s, a), Apply(s, a).callers[a.c])
  {
    hide FlightKey, FlightStep, Outcome, HistoryOk, FlightsOk;
    var pc := s.callers[a.c];
    assert CallerOk(s, pc);
    if a.Join? && FlightKey(pc.key) in s.flights { FlightKeyInjective(s.flights[FlightKey(pc.key)].key, pc.key); }
  }

  /** The others change only when the flight they wait for ends. */
  lemma OthersAfter(s: System, a: Action, c: nat)
    requires Enabled(s, a) && c < |s.callers| && !(OfCaller(a) && a.c == c)
    ensures c < |Apply(s, a).callers|
    ensures Apply(s, a).callers[c] == if a.End? then Handed(s.callers[c], s.flights[a.f].id, s.flights[a.f].stage.via)
                                      else s.callers[c]
    ensures forall f :: f in s.flights && !(a.End? && a.f == f) ==> f in Apply(s, a).flights
  {
    hide FlightKey, Lifetime, Outcome, Served;
  }

  lemma CallersStay(s: System, a: Action)
    requires Enabled(s, a)
    ensures |Apply(s, a).callers| == |s.callers|
  {
  }

  lemma CallerKept(s: System, a: Action, c: nat)
    requires Handing(s) && Enabled(s, a) && c < |s.callers|
    ensures c < |Apply(s, a).callers| && CallerOk(Apply(s, a), Apply(s, a).callers[c])
  {
    if OfCaller(a) && a.c == c {
      ActorKept(s, a);
    } else {
      hide FlightKey, Apply, Outcome, HistoryOk, News;
      NewsMeans(s, a);
      OthersAfter(s, a, c);
      var pc := s.callers[c];
      assert CallerOk(s, pc);
      if a.End? {
        assert FlightOk(s, s.flights[a.f]);
      }
      if pc.Waiting? && FlightKey(pc.key) in Apply(s, a).flights { FlightsAfter(s, a, FlightKey(pc.key)); }
    }
  }

  /** A flight keeps its number and key, and its source once it has one; a new flight is numbered on. */
  lemma FlightsAfter(s: System, a: Action, f: string)
    requires Enabled(s, a) && f in Apply(s, a).flights
    ensures var next := Apply(s, a);
      var now := next.flights[f];
      if f in s.flights then
        var was := s.flights[f];
        && now.id == was.id && now.key == was.key
        && (Source(now) == Source(was)
            || (Source(was).None? && Source(now).value in News(s, a) && SettlesFor(Source(now).value, now.id, now.key)))
        && (Source(now).None? && Acts(a, f) ==> forall e :: e in News(s, a) ==> !Settles(e))
      else
        now.id == s.next && Source(now).None? && News(s, a) == [] && next.next == s.next + 1
  {
    hide FlightKey, Lifetime, Served, Outcome;
  }

  predicate Acts(a: Action, f: string) {
    !OfCaller(a) && !a.Tick? && !a.Evict? && a.f == f
  }

  lemma FlightKept(s: System, a: Action, f: string)
    requires Handing(s) && Enabled(s, a) && f in Apply(s, a).flights
    ensures FlightOk(Apply(s, a), Apply(s, a).flights[f])
  {
    hide Apply, Outcome, HistoryOk, CallersOk, Delivers, News, Source;
    NewsMeans(s, a);
    FlightsAfter(s, a, f);
    if f in s.flights {
      assert FlightOk(s, s.flights[f]);
    } else {
      NotYetNumbered(s);
    }
  }

  lemma NotYetNumbered(s: System)
    requires HistoryOk(s)
    ensures forall e :: e in s.history && Settles(e) ==> e.flight < s.next
  {
    hide DeliveredOk, SettledOnce;
    forall e | e in s.history && Settles(e) ensures e.flight < s.next { assert EventOk(s, e); }
  }

  lemma IdsKept(s: System, a: Action, f: string, g: string)
    requires Handing(s) && Enabled(s, a) && f in Apply(s, a).flights && g in Apply(s, a).flights
    requires Apply(s, a).flights[f].id == Apply(s, a).flights[g].id
    ensures f == g
  {
    hide Apply, HistoryOk, CallersOk, News, Source, SettlesFor;
    FlightsAfter(s, a, f);
    FlightsAfter(s, a, g);
    if f in s.flights { assert FlightOk(s, s.flights[f]); }
    if g in s.flights { assert FlightOk(s, s.flights[g]); }
    if f !in s.flights && g !in s.flights { OneNewFlight(s, a, f, g); }
  }

  lemma OneNewFlight(s: System, a: Action, f: string, g: string)
    requires Enabled(s, a) && f in Apply(s, a).flights && g in Apply(s, a).flights
    requires f !in s.flights && g !in s.flights
    ensures f == g
  {
    hide FlightKey, Lifetime;
  }

  lemma HandingKept(s: System, a: Action)
    requires Handing(s) && Enabled(s, a)
    ensures Handing(Apply(s, a))
  {
    hide Keyed, FlightOk, CallerOk, HistoryOk, Apply, Enabled;
    KeyedKept(s, a);
    HistoryKept(s, a);
    var next := Apply(s, a);
    forall f | f in next.flights ensures FlightOk(next, next.flights[f]) { FlightKept(s, a, f); }
    forall f, g | f in next.flights && g in next.flights && next.flights[f].id == next.flights[g].id ensures f == g {
      IdsKept(s, a, f, g);
    }
    CallersStay(s, a);
    forall c | 0 <= c < |next.callers| ensures CallerOk(next, next.callers[c]) { CallerKept(s, a, c); }
  }

  lemma {:induction false} RunHands(s: System, run: seq<Action>)
    requires Handing(s) && Possible(s, run)
    ensures Handing(Exec(s, run))
    decreases |run|
  {
    hide Handing, Apply, Enabled;
    if run != [] {
      HandingKept(s, run[0]);
      RunHands(Apply(s, run[0]), run[1..]);
    }
  }

  lemma ReachableHands(s: System)
    requires Reachable(s)
    ensures Handing(s)
  {
    hide Exec, Possible;
    var options, now, callers, run :|
      && ValidOptions(options) && Possible(Start(options, now, callers), run)
      && s == Exec(Start(options, now, callers), run);
    RunHands(Start(options, now, callers), run);
  }

  /**
   * Every result delivered, in any interleaving, comes from an event before it under the same key: a hit of the
   * lookup's own, or the answer or the hit of the flight it joined.
   */
  lemma DeliveredComesFrom(s: System, i: nat) returns (j: nat)
    requires Reachable(s) && i < |s.history| && s.history[i].Delivered?
    ensures j < i && Delivers(s.history[j], s.history[i])
    ensures s.history[j].Answered? ==> s.history[i].result == s.history[j].result
    ensures !s.history[j].Answered? ==>
              var e, at := s.history[j].entry, s.history[j].at;
              && e.stored <= at < e.expiredAt
              && s.history[i].result == Result(Some(Aged(e.reply, DurationToTTL(e.expiredAt - at))), None)
              && ServedReply(s.history[i].result.response.value, e.reply, e.expiredAt - at)
  {
    hide Aged, DurationToTTL, Handing, ServedReply;
    ReachableHands(s);
    HandingMeans(s, i);
    j :| j < i && Delivers(s.history[j], s.history[i]);
    if !s.history[j].Answered? {
      var added := HitsWereAdded(s, j);
      AgedIsServed(s.history[j].entry.reply, s.history[j].entry.expiredAt - s.history[j].at);
    }
  }

  lemma HandingMeans(s: System, i: nat)
    requires Handing(s) && i < |s.history|
    ensures DeliveredOk(s.history, i)
    ensures forall j: nat :: j < i && s.history[j].Answered? ==> Normalize(s.history[j].result) == s.history[j].result
    ensures SettledOnce(s.history)
  {
    hide DeliveredOk, SettledOnce, Normalize;
    forall j: nat | j < i && s.history[j].Answered? ensures Normalize(s.history[j].result) == s.history[j].result {
      assert EventOk(s, s.history[j]);
    }
  }

  /** All callers of one flight are handed the same result. */
  lemma OneResultPerFlight(s: System, i: nat, j: nat)
    requires Reachable(s) && i < |s.history| && j < |s.history|
    requires s.history[i].Delivered? && s.history[j].Delivered? && s.history[i].source.Some?
    requires s.history[i].source == s.history[j].source
    ensures s.history[i].key == s.history[j].key && s.history[i].result == s.history[j].result
  {
    hide Aged, Outcome, Handing;
    ReachableHands(s);
    HandingMeans(s, i);
    var k := DeliveredComesFrom(s, i);
    var l := DeliveredComesFrom(s, j);
    assert k == l;
  }
}
