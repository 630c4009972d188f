/**
 * The LRU cache with its ownership boundary. Messages are mutable objects whose records may be shared, so the
 * cache deep-copies what it is given and what it hands out.
 */
module CacheStore {
  import opened Lookups
  import opened Dns
  import opened CacheTtl

  datatype Key = Key(name: string, qtype: uint16)

  // ---- The timed map the cache stands for

  datatype Stored = Stored(reply: Reply, expiredAt: int)

  type Contents = map<Key, Stored>

  function Answer(entry: Option<Stored>, now: int): Option<Reply> {
    if entry.Some? && now < entry.value.expiredAt
    then Some(Aged(entry.value.reply, DurationToTTL(entry.value.expiredAt - now)))
    else None
  }

  function At(c: Contents, key: Key): Option<Stored> {
    if key in c then Some(c[key]) else None
  }

  /** Reading an expired entry removes it. */
  function Swept(c: Contents, key: Key, now: int): Contents {
    if key in c && c[key].expiredAt <= now then c - {key} else c
  }

  function Less(c: Contents, evicted: Option<Key>): Contents {
    if evicted.Some? then c - {evicted.value} else c
  }

  /** A reply without a lifetime leaves the older entry in place. */
  function Put(o: Options, c: Contents, key: Key, reply: Reply, now: int, evicted: Option<Key>): Contents {
    match Lifetime(o, reply)
    case None => c
    case Some(l) => Less(c, evicted)[key := Stored(reply, now + l)]
  }

  /** Only a new key in a full cache costs another entry. */
  predicate MayEvict(c: Contents, size: int, key: Key, evicted: Option<Key>) {
    if key in c || |c| < size then evicted.None? else evicted.Some? && evicted.value in c
  }

  /**
   * A storable reply is found under its key until its lifetime is over; nothing is lost but what a full cache
   * evicts.
   */
  lemma PutMeans(o: Options, c: Contents, size: int, key: Key, reply: Reply, now: int, evicted: Option<Key>, l: int)
    requires Lifetime(o, reply) == Some(l) && MayEvict(c, size, key, evicted)
    ensures var after := Put(o, c, key, reply, now, evicted);
      && key in after && after[key] == Stored(reply, now + l)
      && (forall k :: k in after && k != key ==> k in c && after[k] == c[k])
      && (|c| < size || key in c ==> forall k :: k in c ==> k in after)
      && (forall k, k' :: k in c && k' in c && k !in after && k' !in after ==> k == k')
  {
  }

  // ---- Messages

  /** A record, reached through a pointer. */
  class Rr {
    var value: Record

    constructor (value: Record)
      ensures this.value == value
    {
      this.value := value;
    }
  }

  ghost function Values(rs: seq<Rr>): (v: seq<Record>)
    reads rs
    ensures |v| == |rs| && forall i :: 0 <= i < |rs| ==> v[i] == rs[i].value
  {
    if rs == [] then [] else Values(rs[..|rs| - 1]) + [rs[|rs| - 1].value]
  }

  ghost predicate Distinct(rs: seq<Rr>) {
    forall i, j :: 0 <= i < j < |rs| ==> rs[i] != rs[j]
  }

  class Message {
    var head: Head
    var answer: seq<Rr>
    var ns: seq<Rr>
    var extra: seq<Rr>

    ghost function Records(): seq<Rr>
      reads this
    {
      answer + ns + extra
    }

    ghost function Cells(): (cells: set<object>)
      reads this
      ensures (forall r :: r in answer ==> r in cells) && (forall r :: r in ns ==> r in cells)
          && (forall r :: r in extra ==> r in cells)
    {
      (set r | r in answer) + (set r | r in ns) + (set r | r in extra)
    }

    ghost function Footprint(): set<object>
      reads this
    {
      {this as object} + Cells()
    }

    ghost function View(): Reply
      reads this, Cells()
    {
      Reply(head, Values(answer), Values(ns), Values(extra))
    }

    constructor (head: Head, answer: seq<Rr>, ns: seq<Rr>, extra: seq<Rr>)
      ensures this.head == head && this.answer == answer && this.ns == ns && this.extra == extra
    {
      this.head, this.answer, this.ns, this.extra := head, answer, ns, extra;
    }

    method Copy() returns (copy: Message)
      ensures fresh(copy.Footprint())
      ensures Distinct(copy.Records())
      ensures copy.View() == old(View())
    {
      hide Distinct, Values;
      var answer' := CopySection(answer, []);
      var ns' := CopySection(ns, answer');
      var extra' := CopySection(extra, answer' + ns');
      DistinctTogether(answer', ns');
      DistinctTogether(answer' + ns', extra');
      copy := new Message(head, answer', ns', extra');
    }

    /** Records that occur twice are written twice, to the same effect. */
    method SetTTL(ttl: uint32)
      modifies Cells()
      ensures Footprint() == old(Footprint()) && Records() == old(Records())
      ensures View() == Aged(old(View()), ttl)
    {
      hide AgedRecord, Values;
      AgingIdempotent(ttl);
      SetSectionTTL(answer, ttl);
      SetSectionTTL(ns, ttl);
      SetSectionTTL(extra, ttl);
      AgedValues(answer, old(Values(answer)), ttl);
      AgedValues(ns, old(Values(ns)), ttl);
      AgedValues(extra, old(Values(extra)), ttl);
    }

    method ToReply() returns (reply: Reply)
      ensures reply == old(View()) == View()
    {
      var answer' := ReadSection(answer);
      var ns' := ReadSection(ns);
      var extra' := ReadSection(extra);
      reply := Reply(head, answer', ns', extra');
    }
  }

  method ReadSection(rs: seq<Rr>) returns (v: seq<Record>)
    ensures v == Values(rs)
  {
    v := [];
    for i := 0 to |rs|
      invariant v == Values(rs[..i])
    {
      assert rs[..i + 1][..i] == rs[..i];
      v := v + [rs[i].value];
    }
    assert rs[..|rs|] == rs;
  }

  lemma DistinctTogether(xs: seq<Rr>, ys: seq<Rr>)
    requires Distinct(xs) && Distinct(ys) && forall r :: r in ys ==> r !in xs
    ensures Distinct(xs + ys)
  {
    forall i, j | 0 <= i < j < |xs + ys| ensures (xs + ys)[i] != (xs + ys)[j] {
      if i < |xs| <= j { assert xs[i] in xs && ys[j - |xs|] in ys; }
    }
  }

  lemma AgingIdempotent(ttl: uint32)
    ensures forall r :: AgedRecord(AgedRecord(r, ttl), ttl) == AgedRecord(r, ttl)
  {
  }

  lemma AgedValues(rs: seq<Rr>, before: seq<Record>, ttl: uint32)
    requires |before| == |rs| && forall i :: 0 <= i < |rs| ==> rs[i].value == AgedRecord(before[i], ttl)
    ensures Values(rs) == AgedRecords(before, ttl)
  {
  }

  method CopySection(rs: seq<Rr>, ghost others: seq<Rr>) returns (copy: seq<Rr>)
    ensures forall r :: r in copy ==> fresh(r)
    ensures Distinct(copy) && forall r :: r in copy ==> r !in others
    ensures Values(copy) == Values(rs)
  {
    copy := [];
    for i := 0 to |rs|
      invariant |copy| == i
      invariant forall r :: r in copy ==> fresh(r)
      invariant Distinct(copy) && forall r :: r in copy ==> r !in others
      invariant forall k :: 0 <= k < i ==> copy[k].value == rs[k].value
    {
      var r := new Rr(rs[i].value);
      copy := copy + [r];
    }
  }

  method SetSectionTTL(rs: seq<Rr>, ttl: uint32)
    modifies rs
    ensures forall r :: r in rs ==> r.value == AgedRecord(old(r.value), ttl)
  {
    for i := 0 to |rs|
      invariant forall r :: r in rs ==> r.value == old(r.value) || r.value == AgedRecord(old(r.value), ttl)
      invariant forall r :: r in rs[..i] ==> r.value == AgedRecord(old(r.value), ttl)
    {
      rs[i].value := AgedRecord(rs[i].value, ttl);
    }
  }

  // ---- The cache

  method ComputeLifetime(o: Options, reply: Reply) returns (lifetime: Option<int>)
    ensures lifetime == Lifetime(o, reply)
  {
    hide CacheTTL;
    var ttl, ok := ComputeCacheTTL(reply, o.defaultTTL);
    if !ok { return None; }
    ttl := Overridden(ttl, o.minTTL, o.maxTTL);
    if reply.head.rcode == RCODE_SERVFAIL && ttl > SERVFAIL_MAX { ttl := SERVFAIL_MAX; }
    lifetime := Some(ttl);
  }

  datatype Item = Item(value: Message, expiredAt: int)

  /** What the item stands for, all of it owned by the cache. */
  ghost predicate Backs(item: Item, stored: Stored, repr: set<object>)
    reads repr
  {
    && item.value in repr && item.value.Footprint() <= repr
    && item.value.View() == stored.reply
    && item.expiredAt == stored.expiredAt
  }

  lemma BacksMeans(item: Item, stored: Stored, repr: set<object>)
    requires Backs(item, stored, repr)
    ensures item.value.View() == stored.reply && item.expiredAt == stored.expiredAt
  {
  }

  lemma BacksNow(item: Item, stored: Stored, repr: set<object>)
    requires item.value.Footprint() <= repr && Stored(item.value.View(), item.expiredAt) == stored
    ensures Backs(item, stored, repr)
  {
  }

  lemma BacksGrows(item: Item, stored: Stored, repr: set<object>, more: set<object>)
    requires Backs(item, stored, repr) && repr <= more
    ensures Backs(item, stored, more)
  {
  }

  method Serve(item: Item, now: int) returns (copy: Message)
    requires now < item.expiredAt
    ensures fresh(copy.Footprint()) && Distinct(copy.Records())
    ensures copy.View() == Aged(old(item.value.View()), DurationToTTL(item.expiredAt - now))
  {
    hide Message.View, Message.Cells, Aged, Distinct;
    copy := item.value.Copy();
    copy.SetTTL(DurationToTTL(item.expiredAt - now));
  }

  /** The underlying LRU store is a map of bounded size; which entry it evicts is left open. */
  class LRU {
    const size: int
    const options: Options
    var entries: map<Key, Item>
    ghost var repr: set<object>
    ghost var contents: Contents

    ghost predicate Valid()
      reads this, repr
    {
      && 0 < size && ValidOptions(options)
      && |entries| <= size
      && this !in repr
      && entries.Keys == contents.Keys
      && forall key :: key in entries ==> Backs(entries[key], contents[key], repr)
    }

    constructor (size: int, options: Options)
      requires 0 < size && ValidOptions(options)
      ensures Valid() && this.size == size && this.options == options
      ensures contents == map[] && repr == {}
    {
      this.size, this.options := size, options;
      entries, contents, repr := map[], map[], {};
    }

    /** A size the store cannot have is its only own error. */
    static method New(size: int, options: Options) returns (cache: Option<LRU>)
      ensures cache.Some? <==> ValidOptions(options) && 0 < size
      ensures cache.Some? ==>
                var c := cache.value;
                fresh(c) && c.Valid() && c.size == size && c.options == options && c.contents == map[] && c.repr == {}
    {
      if options.defaultTTL < 0 || options.minTTL < 0 || options.maxTTL < 0 { return None; }
      if options.maxTTL > 0 && options.minTTL > options.maxTTL { return None; }
      if size <= 0 { return None; }
      var c := new LRU(size, options);
      cache := Some(c);
    }

    /** A hit hands out a copy that nobody else holds; only its TTLs differ from what was stored. */
    method Get(key: Key, now: int) returns (response: Option<Message>)
      requires Valid()
      modifies this
      ensures Valid() && repr == old(repr)
      ensures contents == Swept(old(contents), key, now)
      ensures response.None? <==> Answer(At(old(contents), key), now).None?
      ensures response.Some? ==>
                var m := response.value;
                && fresh(m.Footprint()) && Distinct(m.Records())
                && Answer(At(old(contents), key), now) == Some(m.View())
                && key in old(contents)
                && ServedReply(m.View(), old(contents)[key].reply, old(contents)[key].expiredAt - now)
      ensures response.Some? ==> contents == old(contents)
      ensures response.None? ==> key !in contents && contents == old(contents) - {key}
    {
      hide Backs, Aged, Distinct, Message.View, Message.Footprint, Message.Records, DurationToTTL, ServedReply;
      if key !in entries { return None; }
      var item := entries[key];
      BacksMeans(item, contents[key], repr);
      if !(now < item.expiredAt) {
        entries := entries - {key};
        contents := contents - {key};
        return None;
      }
      var copy := Serve(item, now);
      AgedIsServed(contents[key].reply, item.expiredAt - now);
      response := Some(copy);
    }

    /** Stores a copy taken now; only a new key in a full cache costs another entry. */
    method Set(key: Key, response: Option<Message>, now: int) returns (evicted: Option<Key>)
      requires Valid()
      modifies this
      ensures Valid() && old(repr) <= repr && fresh(repr - old(repr))
      ensures response.None? ==> contents == old(contents) && evicted == None
      ensures response.Some? ==>
                && contents == Put(options, old(contents), key, old(response.value.View()), now, evicted)
                && (if Lifetime(options, old(response.value.View())).Some?
                    then MayEvict(old(contents), size, key, evicted) else evicted == None)
    {
      hide Backs, Lifetime, Distinct, Values, Message.Footprint;
      evicted := None;
      if response.None? { return; }
      var reply := response.value.ToReply();
      var lifetime := ComputeLifetime(options, reply);
      if lifetime.None? { return; }
      assert response.value.View() == reply;
      var copy := response.value.Copy();
      var item := Item(copy, now + lifetime.value);
      BacksNow(item, Stored(reply, item.expiredAt), copy.Footprint());
      evicted := Add(key, item, Stored(reply, item.expiredAt), copy.Footprint());
    }

    /** The store's own insertion: a new key in a full store costs another entry. */
    method Add(key: Key, item: Item, ghost stored: Stored, ghost footprint: set<object>) returns (evicted: Option<Key>)
      requires Valid() && this !in footprint && Backs(item, stored, footprint)
      modifies this
      ensures Valid() && repr == old(repr) + footprint
      ensures contents == Less(old(contents), evicted)[key := stored]
      ensures MayEvict(old(contents), size, key, evicted)
    {
      hide Backs;
      evicted := None;
      ghost var more := repr + footprint;
      BacksGrows(item, stored, footprint, more);
      assert |contents| == |contents.Keys| && |entries| == |entries.Keys|;
      if key !in entries && |entries| == size {
        evicted := RemoveOne();
      }
      forall k | k in entries ensures Backs(entries[k], contents[k], more) {
        BacksGrows(entries[k], contents[k], repr, more);
      }
      entries := entries[key := item];
      contents := contents[key := stored];
      repr := more;
    }

    method RemoveOne() returns (victim: Option<Key>)
      requires Valid() && |entries| > 0
      modifies this
      ensures Valid() && repr == old(repr)
      ensures victim.Some? && victim.value in old(contents) && contents == old(contents) - {victim.value}
      ensures |entries| == |old(entries)| - 1
    {
      hide Backs;
      var key :| key in entries;
      entries := entries - {key};
      contents := contents - {key};
      victim := Some(key);
    }
  }
}
