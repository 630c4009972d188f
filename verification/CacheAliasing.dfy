/**
 * The cache among callers who keep, share and overwrite every message they passed in or were handed. Whatever they
 * do, the cache answers as a timed map of values would.
 */
module CacheAliasing {
  import opened Lookups
  import opened Dns
  import opened CacheTtl
  import opened CacheStore

  // ---- The callers' memory: records by number, messages as lists of record numbers

  datatype Shape = Shape(head: Head, answer: seq<nat>, ns: seq<nat>, extra: seq<nat>)

  datatype Heap = Heap(cells: seq<Record>, messages: seq<Shape>)

  predicate InRange(section: seq<nat>, n: nat) {
    forall i :: 0 <= i < |section| ==> section[i] < n
  }

  predicate Fits(s: Shape, n: nat) {
    InRange(s.answer, n) && InRange(s.ns, n) && InRange(s.extra, n)
  }

  predicate WellFormed(h: Heap) {
    forall j :: 0 <= j < |h.messages| ==> Fits(h.messages[j], |h.cells|)
  }

  function Pick<T>(cells: seq<T>, section: seq<nat>): (picked: seq<T>)
    requires InRange(section, |cells|)
    ensures |picked| == |section| && forall i :: 0 <= i < |section| ==> picked[i] == cells[section[i]]
  {
    seq(|section|, i requires 0 <= i < |section| => cells[section[i]])
  }

  /** A message as its callers see it now. */
  function Read(h: Heap, j: nat): Reply
    requires WellFormed(h) && j < |h.messages|
  {
    var s := h.messages[j];
    Reply(s.head, Pick(h.cells, s.answer), Pick(h.cells, s.ns), Pick(h.cells, s.extra))
  }

  function Span(start: nat, n: nat): (span: seq<nat>)
    ensures |span| == n && forall i :: 0 <= i < n ==> span[i] == start + i
  {
    seq(n, i requires 0 <= i < n => start + i)
  }

  /** A new message made of new records. */
  function Alloc(h: Heap, reply: Reply): Heap {
    var n, a, b := |h.cells|, |reply.answer|, |reply.ns|;
    Heap(h.cells + AllRecords(reply),
         h.messages + [Shape(reply.head, Span(n, a), Span(n + a, b), Span(n + a + b, |reply.extra|))])
  }

  /** Writing any older record leaves a new message as it was, and writing any of its own leaves the older ones. */
  lemma NewMessageApart(h: Heap, reply: Reply, i: nat, record: Record, j: nat)
    requires WellFormed(h) && j < |h.messages|
    ensures WellFormed(Alloc(h, reply)) && Read(Alloc(h, reply), |h.messages|) == reply
    ensures var after := Alloc(h, reply);
      i < |after.cells| ==>
        var written := after.(cells := after.cells[i := record]);
        && WellFormed(written)
        && (i < |h.cells| ==> Read(written, |h.messages|) == reply)
        && (i >= |h.cells| ==> Read(written, j) == Read(h, j))
  {
  }

  // ---- What callers may do

  datatype Op =
    | Build(reply: Reply)                       // makes a message
    | Write(cell: nat, record: Record)          // overwrites a record in place, in every message that shares it
    | Reshape(message: nat, shape: Shape)       // overwrites a message's header and sections, sharing any records
    | Set(key: Key, message: nat)
    | SetNone(key: Key)
    | Get(key: Key)
    | Deliver(message: nat)                     // hands one waiting caller a copy of a shared result
    | Pass(nanos: nat)

  datatype Event =
    | Stores(key: Key, reply: Reply, at: int)
    | Evicts(key: Key)
    | Answers(key: Key, answer: Option<Reply>, at: int)

  datatype World = World(heap: Heap, contents: Contents, now: int, log: seq<Event>)

  /** The simple form: values in, values out. */
  function Step(o: Options, w: World, op: Op, evicted: Option<Key>): (next: World)
    requires WellFormed(w.heap)
    ensures WellFormed(next.heap)
  {
    match op
    case Build(reply) => w.(heap := Alloc(w.heap, reply))
    case Write(i, record) =>
      if i < |w.heap.cells| then w.(heap := w.heap.(cells := w.heap.cells[i := record])) else w
    case Reshape(j, shape) =>
      if j < |w.heap.messages| && Fits(shape, |w.heap.cells|)
      then w.(heap := w.heap.(messages := w.heap.messages[j := shape])) else w
    case Set(key, j) =>
      if j < |w.heap.messages| then
        var reply := Read(w.heap, j);
        w.(contents := Put(o, w.contents, key, reply, w.now, evicted),
           log := w.log + (match evicted case None => [] case Some(victim) => [Evicts(victim)])
               + [Stores(key, reply, w.now)])
      else w
    case SetNone(_) => w
    case Get(key) =>
      var answer := Answer(At(w.contents, key), w.now);
      World(if answer.Some? then Alloc(w.heap, answer.value) else w.heap,
            Swept(w.contents, key, w.now), w.now, w.log + [Answers(key, answer, w.now)])
    case Deliver(j) => if j < |w.heap.messages| then w.(heap := Alloc(w.heap, Read(w.heap, j))) else w
    case Pass(d) => w.(now := w.now + d)
  }

  /** Which evictions a store of this size may make. */
  predicate Permitted(o: Options, size: int, w: World, op: Op, evicted: Option<Key>)
    requires WellFormed(w.heap)
  {
    if op.Set? && op.message < |w.heap.messages| && Lifetime(o, Read(w.heap, op.message)).Some?
    then MayEvict(w.contents, size, op.key, evicted) else evicted.None?
  }

  function Start(now: int): World {
    World(Heap([], []), map[], now, [])
  }

  function Run(o: Options, now: int, ops: seq<Op>, evictions: seq<Option<Key>>): (w: World)
    requires |ops| == |evictions|
    ensures WellFormed(w.heap)
    decreases |ops|
  {
    var n := |ops|;
    if n == 0 then Start(now) else Step(o, Run(o, now, ops[..n - 1], evictions[..n - 1]), ops[n - 1], evictions[n - 1])
  }

  predicate AllPermitted(o: Options, size: int, now: int, ops: seq<Op>, evictions: seq<Option<Key>>)
    requires |ops| == |evictions|
    decreases |ops|
  {
    var n := |ops|;
    n > 0 ==>
      && AllPermitted(o, size, now, ops[..n - 1], evictions[..n - 1])
      && Permitted(o, size, Run(o, now, ops[..n - 1], evictions[..n - 1]), ops[n - 1], evictions[n - 1])
  }

  // ---- The same with objects

  ghost predicate Links(section: seq<Rr>, numbers: seq<nat>, cells: seq<Rr>) {
    InRange(numbers, |cells|) && section == Pick(cells, numbers)
  }

  ghost predicate Shaped(m: Message, s: Shape, cells: seq<Rr>)
    reads m
  {
    m.head == s.head && Links(m.answer, s.answer, cells) && Links(m.ns, s.ns, cells) && Links(m.extra, s.extra, cells)
  }

  lemma LinksGrow(section: seq<Rr>, numbers: seq<nat>, cells: seq<Rr>, more: seq<Rr>)
    requires Links(section, numbers, cells)
    ensures Links(section, numbers, cells + more)
  {
  }

  lemma LinksNew(before: seq<Rr>, section: seq<Rr>, after: seq<Rr>)
    ensures Links(section, Span(|before|, |section|), before + section + after)
  {
  }

  lemma ShapedGrows(m: Message, s: Shape, cells: seq<Rr>, more: seq<Rr>)
    requires Shaped(m, s, cells)
    ensures Shaped(m, s, cells + more)
  {
    hide Links;
    LinksGrow(m.answer, s.answer, cells, more);
    LinksGrow(m.ns, s.ns, cells, more);
    LinksGrow(m.extra, s.extra, cells, more);
  }

  lemma ShapedNew(m: Message, h: Heap, cells: seq<Rr>)
    requires |cells| == |h.cells|
    ensures Shaped(m, Alloc(h, m.View()).messages[|h.messages|], cells + m.Records())
  {
    hide Links;
    LinksNew(cells, m.answer, m.ns + m.extra);
    LinksNew(cells + m.answer, m.ns, m.extra);
    LinksNew(cells + m.answer + m.ns, m.extra, []);
    assert cells + m.Records() == cells + m.answer + (m.ns + m.extra);
    assert cells + m.Records() == cells + m.answer + m.ns + m.extra;
    assert cells + m.Records() == cells + m.answer + m.ns + m.extra + [];
  }

  lemma SameValues(m: Message)
    ensures |m.Records()| == |AllRecords(m.View())|
    ensures forall i :: 0 <= i < |m.Records()| ==> m.Records()[i].value == AllRecords(m.View())[i]
  {
  }

  lemma RecordsInFootprint(m: Message)
    ensures m in m.Footprint() && forall i :: 0 <= i < |m.Records()| ==> m.Records()[i] in m.Footprint()
  {
    forall i | 0 <= i < |m.Records()| ensures m.Records()[i] in m.Footprint() {
      var a, b := |m.answer|, |m.answer| + |m.ns|;
      if i < a { assert m.Records()[i] == m.answer[i]; }
      else if i < b { assert m.Records()[i] == m.ns[i - a]; }
      else { assert m.Records()[i] == m.extra[i - b]; }
    }
  }

  /** Everything the callers can reach, and the heap it stands for. */
  class Callers {
    var cells: seq<Rr>
    var held: seq<Message>
    ghost var owned: set<object>
    ghost var heap: Heap

    ghost predicate Valid()
      reads this, owned
    {
      && this in owned
      && (forall i :: 0 <= i < |cells| ==> cells[i] in owned)
      && (forall j :: 0 <= j < |held| ==> held[j] in owned)
      && Distinct(cells)
      && (forall i, j :: 0 <= i < j < |held| ==> held[i] != held[j])
      && |cells| == |heap.cells| && |held| == |heap.messages|
      && (forall i :: 0 <= i < |cells| ==> cells[i].value == heap.cells[i])
      && (forall j :: 0 <= j < |held| ==> Shaped(held[j], heap.messages[j], cells))
    }

    lemma Sound()
      requires Valid()
      ensures WellFormed(heap)
    {
      forall j | 0 <= j < |heap.messages| ensures Fits(heap.messages[j], |heap.cells|) {
        assert Shaped(held[j], heap.messages[j], cells);
      }
    }

    lemma Sees(j: nat)
      requires Valid() && j < |held|
      ensures WellFormed(heap) && held[j].View() == Read(heap, j)
    {
      Sound();
      assert Shaped(held[j], heap.messages[j], cells);
    }

    constructor ()
      ensures Valid() && fresh(owned) && heap == Heap([], [])
    {
      cells, held, heap := [], [], Heap([], []);
      owned := {this};
    }

    method Write(i: nat, record: Record)
      requires Valid() && i < |cells|
      modifies owned
      ensures Valid() && owned == old(owned) && |cells| == |old(cells)| && |held| == |old(held)|
      ensures heap == old(heap).(cells := old(heap).cells[i := record])
    {
      cells[i].value := record;
      heap := heap.(cells := heap.cells[i := record]);
    }

    method Reshape(j: nat, shape: Shape)
      requires Valid() && j < |held| && Fits(shape, |cells|)
      modifies owned
      ensures Valid() && owned == old(owned)
      ensures heap == old(heap).(messages := old(heap).messages[j := shape])
    {
      var m := held[j];
      m.head := shape.head;
      m.answer, m.ns, m.extra := Pick(cells, shape.answer), Pick(cells, shape.ns), Pick(cells, shape.extra);
      heap := heap.(messages := heap.messages[j := shape]);
    }

    /** Takes over a message that nobody else holds. */
    method Adopt(m: Message, ghost reply: Reply, ghost footprint: set<object>)
      requires Valid() && reply == m.View() && footprint == m.Footprint() && footprint !! owned && Distinct(m.Records())
      modifies this
      ensures Valid() && owned == old(owned) + footprint
      ensures heap == Alloc(old(heap), reply)
    {
      hide Shaped, Distinct, Message.View, Message.Footprint, AllRecords;
      RecordsInFootprint(m);
      SameValues(m);
      DistinctTogether(cells, m.Records());
      ShapedNew(m, heap, cells);
      forall j | 0 <= j < |held| ensures Shaped(held[j], heap.messages[j], cells + m.Records()) {
        ShapedGrows(held[j], heap.messages[j], cells, m.Records());
      }
      cells := cells + (m.answer + m.ns + m.extra);
      held := held + [m];
      heap := Alloc(heap, reply);
      owned := owned + footprint;
      assert forall j :: 0 <= j < |held| ==> Shaped(held[j], heap.messages[j], cells);
    }

    method Build(reply: Reply)
      requires Valid()
      modifies this
      ensures Valid() && fresh(owned - old(owned)) && old(owned) <= owned
      ensures heap == Alloc(old(heap), reply)
    {
      hide Valid, Alloc, Message.View, Message.Footprint, Distinct;
      var m := NewMessage(reply);
      Adopt(m, reply, m.Footprint());
    }
  }

  method NewMessage(reply: Reply) returns (m: Message)
    ensures fresh(m.Footprint()) && Distinct(m.Records()) && m.View() == reply
  {
    hide Distinct, Values;
    var answer := NewSection(reply.answer, []);
    var ns := NewSection(reply.ns, answer);
    var extra := NewSection(reply.extra, answer + ns);
    DistinctTogether(answer, ns);
    DistinctTogether(answer + ns, extra);
    m := new Message(reply.head, answer, ns, extra);
  }

  method NewSection(v: seq<Record>, ghost others: seq<Rr>) returns (rs: seq<Rr>)
    ensures forall r :: r in rs ==> fresh(r)
    ensures Distinct(rs) && forall r :: r in rs ==> r !in others
    ensures Values(rs) == v
  {
    rs := [];
    for i := 0 to |v|
      invariant |rs| == i
      invariant forall r :: r in rs ==> fresh(r)
      invariant Distinct(rs) && forall r :: r in rs ==> r !in others
      invariant forall k :: 0 <= k < i ==> rs[k].value == v[k]
    {
      var r := new Rr(v[i]);
      rs := rs + [r];
    }
  }

  // ---- The cache and its callers together

  /** No object of the cache is within the callers' reach. */
  ghost predicate Apart(cache: LRU, callers: Callers)
    reads cache, callers
  {
    callers in callers.owned && callers.owned !! cache.repr + {cache}
  }

  ghost predicate Together(cache: LRU, callers: Callers)
    reads cache, cache.repr, callers, callers.owned
  {
    cache.Valid() && callers.Valid() && Apart(cache, callers)
  }

  ghost predicate Matches(w: World, cache: LRU, callers: Callers)
    reads cache, callers
  {
    WellFormed(w.heap) && w.heap == callers.heap && w.contents == cache.contents
  }

  method PerformGet(cache: LRU, callers: Callers, key: Key, now: int, ghost w: World) returns (event: Event)
    requires Together(cache, callers) && Matches(w, cache, callers) && w.now == now
    modifies cache, callers
    ensures Together(cache, callers) && fresh(cache.repr - old(cache.repr)) && fresh(callers.owned - old(callers.owned))
    ensures var next := Step(cache.options, w, Get(key), None);
      Matches(next, cache, callers) && next.log == w.log + [event]
  {
    hide LRU.Valid, Callers.Valid, Message.View, Message.Footprint, Alloc, Aged, Swept, At, Distinct;
    var response := cache.Get(key, now);
    if response.None? { return Answers(key, None, now); }
    var m := response.value;
    var reply := m.ToReply();
    callers.Adopt(m, reply, m.Footprint());
    event := Answers(key, Some(reply), now);
  }

  method PerformDeliver(cache: LRU, callers: Callers, j: nat, ghost w: World)
    requires Together(cache, callers) && Matches(w, cache, callers) && j < |callers.held|
    modifies callers
    ensures Together(cache, callers) && fresh(callers.owned - old(callers.owned))
    ensures Matches(Step(cache.options, w, Deliver(j), None), cache, callers)
  {
    hide LRU.Valid, Message.View, Message.Footprint, Alloc, Distinct, Read;
    callers.Sees(j);
    ghost var reply := callers.held[j].View();
    var m := callers.held[j].Copy();
    callers.Adopt(m, reply, m.Footprint());
  }

  method PerformSet(cache: LRU, callers: Callers, key: Key, j: nat, now: int, ghost w: World)
    returns (evicted: Option<Key>, events: seq<Event>)
    requires Together(cache, callers) && Matches(w, cache, callers) && w.now == now && j < |callers.held|
    modifies cache
    ensures Together(cache, callers) && fresh(cache.repr - old(cache.repr))
    ensures j < |w.heap.messages| && Permitted(cache.options, cache.size, w, Set(key, j), evicted)
    ensures var next := Step(cache.options, w, Set(key, j), evicted);
      Matches(next, cache, callers) && next.log == w.log + events
  {
    hide LRU.Valid, Message.View, Message.Footprint, Lifetime, Put, MayEvict, Distinct, Read;
    callers.Sees(j);
    var reply := callers.held[j].ToReply();
    evicted := cache.Set(key, Some(callers.held[j]), now);
    events := (match evicted case None => [] case Some(victim) => [Evicts(victim)]) + [Stores(key, reply, now)];
  }

  /** One operation on the objects is one step of the simple form. */
  method Perform(cache: LRU, callers: Callers, op: Op, now: int, ghost w: World)
    returns (evicted: Option<Key>, events: seq<Event>, later: int)
    requires Together(cache, callers) && Matches(w, cache, callers) && w.now == now
    modifies cache, callers, callers.owned
    ensures Together(cache, callers) && fresh(cache.repr - old(cache.repr)) && fresh(callers.owned - old(callers.owned))
    ensures Permitted(cache.options, cache.size, w, op, evicted)
    ensures var next := Step(cache.options, w, op, evicted);
      Matches(next, cache, callers) && next.log == w.log + events && next.now == later
  {
    hide LRU.Valid, Alloc, Lifetime, Put, MayEvict, Distinct, Read, Shaped, Swept, Answer;
    evicted, events, later := None, [], now;
    match op {
      case Build(reply) => callers.Build(reply);
      case Write(i, record) => if i < |callers.cells| { callers.Write(i, record); }
      case Reshape(j, shape) => if j < |callers.held| && Fits(shape, |callers.cells|) { callers.Reshape(j, shape); }
      case Set(key, j) => if j < |callers.held| { evicted, events := PerformSet(cache, callers, key, j, now, w); }
      case SetNone(key) => evicted := cache.Set(key, None, now);
      case Get(key) =>
        var event := PerformGet(cache, callers, key, now, w);
        events := [event];
      case Deliver(j) => if j < |callers.held| { PerformDeliver(cache, callers, j, w); }
      case Pass(d) => later := now + d;
    }
    callers.Sound();
  }

  /** Any program of cache operations and caller mutations answers exactly as the simple form does. */
  method Drive(size: int, options: Options, start: int, ops: seq<Op>)
    returns (evictions: seq<Option<Key>>, log: seq<Event>)
    requires 0 < size && ValidOptions(options)
    ensures |evictions| == |ops| && AllPermitted(options, size, start, ops, evictions)
    ensures log == Run(options, start, ops, evictions).log
  {
    hide LRU.Valid, Callers.Valid, Step, Permitted;
    var cache := new LRU(size, options);
    var callers := new Callers();
    var now := start;
    evictions, log := [], [];
    for i := 0 to |ops|
      invariant fresh(cache) && fresh(callers) && fresh(cache.repr) && fresh(callers.owned)
      invariant cache.size == size && cache.options == options
      invariant Together(cache, callers)
      invariant |evictions| == i && AllPermitted(options, size, start, ops[..i], evictions)
      invariant Matches(Run(options, start, ops[..i], evictions), cache, callers)
      invariant log == Run(options, start, ops[..i], evictions).log
          && now == Run(options, start, ops[..i], evictions).now
    {
      ghost var w := Run(options, start, ops[..i], evictions);
      var evicted, events, later := Perform(cache, callers, ops[i], now, w);
      assert ops[..i + 1][..i] == ops[..i] && (evictions + [evicted])[..i] == evictions;
      evictions, log, now := evictions + [evicted], log + events, later;
    }
    assert ops[..|ops|] == ops;
  }
}
