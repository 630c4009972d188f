/** A Get that nobody disturbs takes the machine of atomic steps through exactly the Get of the store. */
module CacheAlone {
  import opened Lookups
  import opened CacheStore
  import opened CacheFlight

  /** The store's contents, as CacheStore speaks of them. */
  function Timed(s: System): Contents {
    map key | key in s.entries :: Stored(s.entries[key].reply, s.entries[key].expiredAt)
  }

  /** Only the Get of caller c moves, and time passes. */
  predicate Alone(run: seq<Action>, c: nat) {
    forall i :: 0 <= i < |run| ==> run[i].Tick? || ((run[i].Time? || run[i].Remove?) && run[i].c == c)
  }

  predicate Over(s: System, c: nat)
    requires c < |s.callers|
  {
    s.callers[c].Missed? || s.callers[c].Leaving?
  }

  /** The Get of `key` on the contents `before` at time t: what it leaves, and what caller c has of it. */
  predicate Got(before: Contents, s: System, c: nat, key: Key, t: int)
    requires c < |s.callers|
  {
    && Timed(s) == Swept(before, key, t)
    && match s.callers[c]
       case Leaving(k, via) => k == key && via.Hit? && Outcome(via) == Result(Answer(At(before, key), t), None)
                               && Answer(At(before, key), t).Some?
       case Missed(k) => k == key && Answer(At(before, key), t).None?
       case _ => false
  }

  /** How far that Get has come, with the clock read at t once it has been read. */
  predicate Midway(before: Contents, s: System, c: nat, key: Key, t: int)
    requires c < |s.callers|
  {
    match s.callers[c]
    case Timing(k, found) =>
      k == key && Timed(s) == before && key in before && before[key] == Stored(found.reply, found.expiredAt)
    case Removing(k) => k == key && Timed(s) == before && key in before && before[key].expiredAt <= t
    case _ => Got(before, s, c, key, t)
  }

  lemma Begins(s: System, c: nat, key: Key)
    requires c < |s.callers| && s.callers[c].Idle?
    ensures Midway(Timed(s), Apply(s, Call(c, key)), c, key, s.now)
  {
  }

  lemma Continues(before: Contents, s: System, c: nat, key: Key, t: int, a: Action) returns (u: int)
    requires c < |s.callers| && Midway(before, s, c, key, t) && Enabled(s, a)
    requires a.Tick? || ((a.Time? || a.Remove?) && a.c == c)
    ensures c < |Apply(s, a).callers| && Midway(before, Apply(s, a), c, key, u) && u in {t, s.now}
  {
    u := if a.Time? then s.now else t;
    assert Timed(Apply(s, a)) == if a.Remove? then Timed(s) - {key} else Timed(s);
  }

  lemma {:induction false} RestOfGet(before: Contents, s: System, c: nat, key: Key, t: int, run: seq<Action>)
    returns (u: int)
    requires c < |s.callers| && Midway(before, s, c, key, t) && t <= s.now && Possible(s, run) && Alone(run, c)
    requires c < |Exec(s, run).callers| && Over(Exec(s, run), c)
    ensures t <= u <= Exec(s, run).now && Got(before, Exec(s, run), c, key, u)
    decreases |run|
  {
    hide Apply, Enabled, Got;
    if run == [] {
      u := t;
    } else {
      assert run[0].Tick? || ((run[0].Time? || run[0].Remove?) && run[0].c == c);
      forall i | 0 <= i < |run| - 1 ensures run[1..][i] == run[i + 1] {}
      ClockForward(s, run[0]);
      var v := Continues(before, s, c, key, t, run[0]);
      u := RestOfGet(before, Apply(s, run[0]), c, key, v, run[1..]);
    }
  }

  lemma ClockForward(s: System, a: Action)
    requires Enabled(s, a)
    ensures s.now <= Apply(s, a).now
  {
  }

  /**
   * Reading the store, reading the clock and removing what has expired are, when nobody comes between, one Get of the
   * store at one moment of the time they took.
   */
  lemma AloneIsGet(s: System, c: nat, key: Key, run: seq<Action>) returns (t: int)
    requires c < |s.callers| && s.callers[c].Idle? && Possible(Apply(s, Call(c, key)), run) && Alone(run, c)
    requires var end := Exec(Apply(s, Call(c, key)), run); c < |end.callers| && Over(end, c)
    ensures var end := Exec(Apply(s, Call(c, key)), run); s.now <= t <= end.now && Got(Timed(s), end, c, key, t)
  {
    Begins(s, c, key);
    t := RestOfGet(Timed(s), Apply(s, Call(c, key)), c, key, s.now, run);
  }
}
