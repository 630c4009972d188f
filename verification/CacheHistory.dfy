/** What the answers of the cache say about the history of its use. */
module CacheHistory {
  import opened Lookups
  import opened Dns
  import opened CacheTtl
  import opened CacheStore
  import opened CacheAliasing

  /** What the last storable reply for a key left behind, in a store that may have evicted it since. */
  function LastStored(o: Options, log: seq<Event>, key: Key): Option<Stored> {
    if log == [] then None
    else
      var before := LastStored(o, log[..|log| - 1], key);
      match log[|log| - 1]
      case Stores(k, reply, at) =>
        if k == key && Lifetime(o, reply).Some? then Some(Stored(reply, at + Lifetime(o, reply).value)) else before
      case Evicts(k) => if k == key then None else before
      case Answers(_, _, _) => before
  }

  /** The same in a store without bound. */
  function LastWritten(o: Options, log: seq<Event>, key: Key): Option<Stored> {
    if log == [] then None
    else
      match log[|log| - 1]
      case Stores(k, reply, at) =>
        if k == key && Lifetime(o, reply).Some? then Some(Stored(reply, at + Lifetime(o, reply).value))
        else LastWritten(o, log[..|log| - 1], key)
      case _ => LastWritten(o, log[..|log| - 1], key)
  }

  ghost predicate Truthful(o: Options, log: seq<Event>) {
    forall j: nat :: j < |log| && log[j].Answers? ==>
        log[j].answer == Answer(LastStored(o, log[..j], log[j].key), log[j].at)
  }

  ghost predicate Agrees(o: Options, w: World, key: Key) {
    var last := LastStored(o, w.log, key);
    if key in w.contents then last == Some(w.contents[key]) else last.None? || last.value.expiredAt <= w.now
  }

  ghost predicate Sound(o: Options, w: World) {
    Truthful(o, w.log) && forall key :: Agrees(o, w, key)
  }

  lemma Extends(o: Options, log: seq<Event>, e: Event)
    requires Truthful(o, log)
    requires e.Answers? ==> e.answer == Answer(LastStored(o, log, e.key), e.at)
    ensures Truthful(o, log + [e])
  {
    hide LastStored, Answer;
    forall j: nat | j < |log + [e]| && (log + [e])[j].Answers?
      ensures (log + [e])[j].answer == Answer(LastStored(o, (log + [e])[..j], (log + [e])[j].key), (log + [e])[j].at)
    {
      assert (log + [e])[..j] == log[..j];
      assert log[..|log|] == log;
    }
  }

  lemma LastAfter(o: Options, log: seq<Event>, e: Event, key: Key)
    ensures LastStored(o, log + [e], key) ==
            match e
            case Stores(k, reply, at) =>
              if k == key && Lifetime(o, reply).Some? then Some(Stored(reply, at + Lifetime(o, reply).value))
                  else LastStored(o, log, key)
            case Evicts(k) => if k == key then None else LastStored(o, log, key)
            case Answers(_, _, _) => LastStored(o, log, key)
  {
    assert (log + [e])[..|log|] == log;
  }

  lemma GetKeeps(o: Options, w: World, key: Key)
    requires Sound(o, w) && WellFormed(w.heap)
    ensures Sound(o, Step(o, w, Get(key), None))
  {
    hide LastStored, Aged, Alloc, Lifetime, Truthful;
    var next := Step(o, w, Get(key), None);
    var e := Answers(key, Answer(At(w.contents, key), w.now), w.now);
    assert Agrees(o, w, key);
    Extends(o, w.log, e);
    forall k ensures Agrees(o, next, k) {
      assert Agrees(o, w, k);
      LastAfter(o, w.log, e, k);
    }
  }

  lemma SetKeeps(o: Options, size: int, w: World, key: Key, j: nat, evicted: Option<Key>)
    requires Sound(o, w) && WellFormed(w.heap) && j < |w.heap.messages|
    requires Permitted(o, size, w, Set(key, j), evicted)
    ensures Sound(o, Step(o, w, Set(key, j), evicted))
  {
    hide LastStored, Lifetime, Read, Truthful;
    var next := Step(o, w, Set(key, j), evicted);
    var e := Stores(key, Read(w.heap, j), w.now);
    var middle := if evicted.Some? then w.log + [Evicts(evicted.value)] else w.log;
    if evicted.Some? { Extends(o, w.log, Evicts(evicted.value)); }
    Extends(o, middle, e);
    assert next.log == middle + [e];
    forall k ensures Agrees(o, next, k) {
      assert Agrees(o, w, k);
      if evicted.Some? { LastAfter(o, w.log, Evicts(evicted.value), k); }
      LastAfter(o, middle, e, k);
    }
  }

  lemma StepKeeps(o: Options, size: int, w: World, op: Op, evicted: Option<Key>)
    requires Sound(o, w) && WellFormed(w.heap) && Permitted(o, size, w, op, evicted)
    ensures Sound(o, Step(o, w, op, evicted))
  {
    hide LastStored, Put, Swept, Answer, Truthful, Alloc, Permitted;
    var next := Step(o, w, op, evicted);
    match op {
      case Get(key) =>
        assert next == Step(o, w, op, None);
        GetKeeps(o, w, key);
      case Set(key, j) => if j < |w.heap.messages| { SetKeeps(o, size, w, key, j, evicted); }
      case _ =>
        assert next.log == w.log && next.contents == w.contents && w.now <= next.now;
        forall k ensures Agrees(o, next, k) { assert Agrees(o, w, k); }
    }
  }

  lemma {:induction false} RunKeeps(o: Options, size: int, start: int, ops: seq<Op>, evictions: seq<Option<Key>>)
    requires |ops| == |evictions| && AllPermitted(o, size, start, ops, evictions)
    ensures Sound(o, Run(o, start, ops, evictions))
  {
    hide Step, Permitted;
    var n := |ops|;
    if n > 0 {
      RunKeeps(o, size, start, ops[..n - 1], evictions[..n - 1]);
      StepKeeps(o, size, Run(o, start, ops[..n - 1], evictions[..n - 1]), ops[n - 1], evictions[n - 1]);
    }
  }

  /**
   * Every answer is that of the last storable reply for its key, unless that was evicted or has expired; so
   * nothing callers did to any message in between can show.
   */
  lemma AnswersAreStored(o: Options, size: int, start: int, ops: seq<Op>, evictions: seq<Option<Key>>, j: nat)
    requires |ops| == |evictions| && AllPermitted(o, size, start, ops, evictions)
    requires var log := Run(o, start, ops, evictions).log; j < |log| && log[j].Answers?
    ensures var log := Run(o, start, ops, evictions).log;
      log[j].answer == Answer(LastStored(o, log[..j], log[j].key), log[j].at)
  {
    RunKeeps(o, size, start, ops, evictions);
  }

  /** The reply of event `i` is what stands for its key before event `j`. */
  ghost predicate Stands(o: Options, log: seq<Event>, i: nat, j: nat, key: Key)
    requires i < j <= |log|
  {
    && log[i].Stores? && log[i].key == key && Lifetime(o, log[i].reply).Some?
    && forall m: nat :: i < m < j && log[m].key == key ==>
                          log[m].Answers? || (log[m].Stores? && Lifetime(o, log[m].reply).None?)
  }

  lemma {:induction false} LastMeaning(o: Options, log: seq<Event>, j: nat, key: Key) returns (i: nat)
    requires j <= |log| && LastStored(o, log[..j], key).Some?
    ensures i < j && Stands(o, log, i, j, key)
    ensures LastStored(o, log[..j], key) == Some(Stored(log[i].reply, log[i].at + Lifetime(o, log[i].reply).value))
    decreases j
  {
    hide Lifetime;
    assert j > 0 && log[..j][..j - 1] == log[..j - 1] && log[..j][j - 1] == log[j - 1];
    if log[j - 1].Stores? && log[j - 1].key == key && Lifetime(o, log[j - 1].reply).Some? {
      i := j - 1;
    } else {
      i := LastMeaning(o, log, j - 1, key);
    }
  }

  lemma {:induction false} StandsIsLast(o: Options, log: seq<Event>, i: nat, j: nat, key: Key)
    requires i < j <= |log| && Stands(o, log, i, j, key)
    ensures LastStored(o, log[..j], key) == Some(Stored(log[i].reply, log[i].at + Lifetime(o, log[i].reply).value))
    decreases j
  {
    hide Lifetime;
    assert log[..j][..j - 1] == log[..j - 1] && log[..j][j - 1] == log[j - 1];
    if i < j - 1 {
      assert log[j - 1].key == key ==> log[j - 1].Answers? || log[j - 1].Stores?;
      StandsIsLast(o, log, i, j - 1, key);
    }
  }

  /** A Get hits exactly when a reply stored before stands for its key and has not expired. */
  lemma HitExactly(o: Options, size: int, start: int, ops: seq<Op>, evictions: seq<Option<Key>>, j: nat)
    requires |ops| == |evictions| && AllPermitted(o, size, start, ops, evictions)
    requires var log := Run(o, start, ops, evictions).log; j < |log| && log[j].Answers?
    ensures var log := Run(o, start, ops, evictions).log;
      log[j].answer.Some? <==>
      exists i: nat :: i < j && Stands(o, log, i, j, log[j].key)
          && log[j].at < log[i].at + Lifetime(o, log[i].reply).value
  {
    hide Lifetime, LastStored, Run, AllPermitted;
    var log := Run(o, start, ops, evictions).log;
    AnswersAreStored(o, size, start, ops, evictions, j);
    if log[j].answer.Some? {
      var i := LastMeaning(o, log, j, log[j].key);
    }
    forall i: nat | i < j && Stands(o, log, i, j, log[j].key) && log[j].at < log[i].at + Lifetime(o, log[i].reply).value
      ensures log[j].answer.Some?
    {
      StandsIsLast(o, log, i, j, log[j].key);
    }
  }

  /** And the hit is the message as it was when stored, with the remaining seconds for TTLs. */
  lemma HitContents(o: Options, size: int, start: int, ops: seq<Op>, evictions: seq<Option<Key>>, i: nat, j: nat)
    requires |ops| == |evictions| && AllPermitted(o, size, start, ops, evictions)
    requires var log := Run(o, start, ops, evictions).log;
      i < j < |log| && log[j].Answers? && log[j].answer.Some? && Stands(o, log, i, j, log[j].key)
    ensures var log := Run(o, start, ops, evictions).log;
      var remaining := log[i].at + Lifetime(o, log[i].reply).value - log[j].at;
      remaining > 0 && log[j].answer.value == Aged(log[i].reply, DurationToTTL(remaining))
  {
    hide Lifetime, Stands, LastStored, Run, AllPermitted, Aged, DurationToTTL;
    var log := Run(o, start, ops, evictions).log;
    AnswersAreStored(o, size, start, ops, evictions, j);
    StandsIsLast(o, log, i, j, log[j].key);
  }

  lemma {:induction false} EvictionOnlyForgets(o: Options, log: seq<Event>, key: Key)
    ensures LastStored(o, log, key).None? || LastStored(o, log, key) == LastWritten(o, log, key)
  {
    hide Lifetime;
    if log != [] { EvictionOnlyForgets(o, log[..|log| - 1], key); }
  }

  /** Whatever the bound evicts, each answer is a miss or the answer of a store without bound. */
  lemma EvictionOnlyMisses(o: Options, size: int, start: int, ops: seq<Op>, evictions: seq<Option<Key>>, j: nat)
    requires |ops| == |evictions| && AllPermitted(o, size, start, ops, evictions)
    requires var log := Run(o, start, ops, evictions).log; j < |log| && log[j].Answers?
    ensures var log := Run(o, start, ops, evictions).log;
      log[j].answer.None? || log[j].answer == Answer(LastWritten(o, log[..j], log[j].key), log[j].at)
  {
    hide LastStored, LastWritten, Run, AllPermitted;
    var log := Run(o, start, ops, evictions).log;
    AnswersAreStored(o, size, start, ops, evictions, j);
    EvictionOnlyForgets(o, log[..j], log[j].key);
  }

  // ---- Ageing over whole runs

  /** The log is in the order of the clock. */
  ghost predicate InOrder(w: World) {
    && (forall i: nat :: i < |w.log| && !w.log[i].Evicts? ==> w.log[i].at <= w.now)
    && (forall i: nat, j: nat :: i < j < |w.log| && !w.log[i].Evicts? && !w.log[j].Evicts? ==>
          w.log[i].at <= w.log[j].at)
  }

  lemma StepInOrder(o: Options, w: World, op: Op, evicted: Option<Key>)
    requires WellFormed(w.heap) && InOrder(w)
    ensures InOrder(Step(o, w, op, evicted))
  {
    hide Put, Swept, Answer, Alloc, Read;
  }

  lemma {:induction false} RunInOrder(o: Options, start: int, ops: seq<Op>, evictions: seq<Option<Key>>)
    requires |ops| == |evictions|
    ensures InOrder(Run(o, start, ops, evictions))
  {
    hide Step;
    var n := |ops|;
    if n > 0 {
      RunInOrder(o, start, ops[..n - 1], evictions[..n - 1]);
      StepInOrder(o, Run(o, start, ops[..n - 1], evictions[..n - 1]), ops[n - 1], evictions[n - 1]);
    }
  }

  /** Without MinTTL, no hit on a NOERROR reply stored for its least TTL carries a TTL above that record's own. */
  lemma HitsNeverLonger(o: Options, size: int, start: int, ops: seq<Op>, evictions: seq<Option<Key>>, i: nat, j: nat,
      k: nat)
    requires |ops| == |evictions| && AllPermitted(o, size, start, ops, evictions) && ValidOptions(o) && o.minTTL == 0
    requires var log := Run(o, start, ops, evictions).log;
      && i < j < |log| && log[j].Answers? && log[j].answer.Some? && Stands(o, log, i, j, log[j].key)
      && log[i].reply.head.rcode == RCODE_SUCCESS && (log[i].reply.answer != [] || NegativeTTL(log[i].reply.ns).None?)
      && k < |AllRecords(log[i].reply)|
    ensures var log := Run(o, start, ops, evictions).log;
      && |AllRecords(log[j].answer.value)| == |AllRecords(log[i].reply)|
      && AllRecords(log[j].answer.value)[k].ttl <= AllRecords(log[i].reply)[k].ttl
  {
    hide Lifetime, Run, AllPermitted, DurationToTTL, NegativeTTL;
    var log := Run(o, start, ops, evictions).log;
    HitContents(o, size, start, ops, evictions, i, j);
    RunInOrder(o, start, ops, evictions);
    var reply := log[i].reply;
    var ttl := DurationToTTL(log[i].at + Lifetime(o, reply).value - log[j].at);
    AgedEach(reply, ttl, k);
    if AllRecords(reply)[k].rrtype != TYPE_OPT {
      NeverServedLonger(o, reply, log[i].at, log[j].at, AllRecords(reply)[k]);
    }
  }

  lemma AgedEach(reply: Reply, ttl: uint32, k: nat)
    requires k < |AllRecords(reply)|
    ensures |AllRecords(Aged(reply, ttl))| == |AllRecords(reply)|
    ensures AllRecords(Aged(reply, ttl))[k] == AgedRecord(AllRecords(reply)[k], ttl)
  {
  }

  /**
   * Field by field, a hit is the message that stands for its key: the head, the sections and the records as they were
   * stored, OPT records with them, and every other TTL the seconds left, rounded up.
   */
  lemma HitFields(
    o: Options, size: int, start: int, ops: seq<Op>, evictions: seq<Option<Key>>, i: nat, j: nat)
    requires |ops| == |evictions| && AllPermitted(o, size, start, ops, evictions)
    requires var log := Run(o, start, ops, evictions).log;
      i < j < |log| && log[j].Answers? && log[j].answer.Some? && Stands(o, log, i, j, log[j].key)
    ensures var log := Run(o, start, ops, evictions).log;
      var remaining := log[i].at + Lifetime(o, log[i].reply).value - log[j].at;
      remaining > 0 && ServedReply(log[j].answer.value, log[i].reply, remaining)
  {
    hide Lifetime, Run, AllPermitted, Aged, DurationToTTL, ServedReply;
    HitContents(o, size, start, ops, evictions, i, j);
    var log := Run(o, start, ops, evictions).log;
    AgedIsServed(log[i].reply, log[i].at + Lifetime(o, log[i].reply).value - log[j].at);
  }

  ghost predicate FallenSection(early: seq<Record>, late: seq<Record>, elapsed: int) {
    |early| == |late| && forall k: nat | k < |early| :: FallenRecord(early[k], late[k], elapsed)
  }

  /** Below the cap, a TTL has fallen by the elapsed seconds, rounded down or up; nothing else differs. */
  predicate FallenRecord(early: Record, late: Record, elapsed: int) {
    && early.owner == late.owner && early.rrtype == late.rrtype && early.body == late.body
    && (early.rrtype == 41 ==> early == late)
    && (early.rrtype != 41 && early.ttl < 0xFFFF_FFFF ==>
          early.ttl - late.ttl in {elapsed / 1_000_000_000, (elapsed + 999_999_999) / 1_000_000_000})
  }

  lemma SectionFalls(stored: seq<Record>, early: seq<Record>, late: seq<Record>, remaining: int, elapsed: int)
    requires ServedSection(early, stored, remaining) && ServedSection(late, stored, remaining - elapsed)
    requires 0 <= elapsed < remaining
    ensures FallenSection(early, late, elapsed)
  {
    hide IsCeiling;
    forall k: nat | k < |stored| ensures FallenRecord(early[k], late[k], elapsed) {
      assert ServedRecord(early[k], stored[k], remaining) && ServedRecord(late[k], stored[k], remaining - elapsed);
      if stored[k].rrtype != 41 && early[k].ttl < 0xFFFF_FFFF {
        CeilingsFall(early[k].ttl, late[k].ttl, remaining, elapsed);
      }
    }
  }

  /** Two hits of one entry. */
  lemma HitsFall(
    o: Options, size: int, start: int, ops: seq<Op>, evictions: seq<Option<Key>>, i: nat, j: nat, k: nat)
    requires |ops| == |evictions| && AllPermitted(o, size, start, ops, evictions)
    requires var log := Run(o, start, ops, evictions).log;
      && i < j < k < |log| && log[j].Answers? && log[j].answer.Some? && log[k].Answers? && log[k].answer.Some?
      && log[j].key == log[k].key && Stands(o, log, i, j, log[j].key) && Stands(o, log, i, k, log[k].key)
    ensures var log := Run(o, start, ops, evictions).log;
      var early, late, elapsed := log[j].answer.value, log[k].answer.value, log[k].at - log[j].at;
      && elapsed >= 0 && early.head == late.head && FallenSection(early.answer, late.answer, elapsed)
      && FallenSection(early.ns, late.ns, elapsed) && FallenSection(early.extra, late.extra, elapsed)
  {
    hide Lifetime, Run, AllPermitted, ServedSection, FallenSection;
    var log := Run(o, start, ops, evictions).log;
    HitFields(o, size, start, ops, evictions, i, j);
    HitFields(o, size, start, ops, evictions, i, k);
    RunInOrder(o, start, ops, evictions);
    var stored, remaining := log[i].reply, log[i].at + Lifetime(o, log[i].reply).value - log[j].at;
    var early, late, elapsed := log[j].answer.value, log[k].answer.value, log[k].at - log[j].at;
    SectionFalls(stored.answer, early.answer, late.answer, remaining, elapsed);
    SectionFalls(stored.ns, early.ns, late.ns, remaining, elapsed);
    SectionFalls(stored.extra, early.extra, late.extra, remaining, elapsed);
  }
}
