/** Iterative delegation from the name servers of a zone towards an answer. */
module Recursive {
  import opened Lookups
  import opened Dns
  import Retry

  const MAX_DEPTH: nat := 16

  /** A Go slice: the first `len` elements of a backing array that other slices may share. */
  datatype Slice = Slice(data: array<string>, len: nat) {
    ghost predicate Valid() { len <= data.Length }

    ghost function Elements(): seq<string>
      requires Valid()
      reads data
    {
      data[..len]
    }
  }

  /** Appends in place when the backing array has room, and to a copy when it has not. */
  method Append(s: Slice, x: string) returns (t: Slice)
    requires s.Valid()
    modifies s.data
    ensures t.Valid() && t.Elements() == old(s.Elements()) + [x]
    ensures t.data == s.data || (fresh(t.data) && s.data[..] == old(s.data[..]))
  {
    if s.len < s.data.Length {
      s.data[s.len] := x;
      t := Slice(s.data, s.len + 1);
    } else {
      var grown := new string[2 * s.data.Length + 1];
      forall i | 0 <= i < s.len { grown[i] := s.data[i]; }
      grown[s.len] := x;
      t := Slice(grown, s.len + 1);
    }
  }

  method Clone(root: array<string>) returns (s: Slice)
    ensures s.Valid() && fresh(s.data) && s.Elements() == root[..]
  {
    var copy := new string[root.Length];
    forall i | 0 <= i < root.Length { copy[i] := root[i]; }
    s := Slice(copy, root.Length);
  }

  /**
   * Everything outside the function: the recursive cache, the public zone of the name, the internal resolver, whether
   * a resolver for a server can be built, canonical names, and, by round and attempt, the caller's context, the random
   * draw among the servers and the answer of the server drawn.
   */
  datatype World = World(
    cached: Option<Reply>,
    zone: Option<seq<string>>,
    internal: string -> Result<Reply>,
    constructible: string -> bool,
    fqdn: string -> string,
    context: (nat, nat) -> Option<Error>,
    draw: (nat, nat) -> nat,
    answer: (nat, nat, string) -> Result<Reply>)

  /** The elements to keep, in order. */
  function Kept<T(!new)>(all: seq<T>, keep: T -> bool): (kept: seq<T>)
    ensures forall k :: 0 <= k < |kept| ==> keep(kept[k]) && kept[k] in all
    ensures kept == [] <==> forall x :: x in all ==> !keep(x)
  {
    if all == [] then []
    else
      var before, last := Kept(all[..|all| - 1], keep), all[|all| - 1];
      assert forall x :: x in all <==> x in all[..|all| - 1] || x == last;
      before + if keep(last) then [last] else []
  }

  lemma KeptNext<T(!new)>(all: seq<T>, x: T, keep: T -> bool)
    ensures Kept(all + [x], keep) == Kept(all, keep) + if keep(x) then [x] else []
  {
    assert (all + [x])[..|all|] == all;
  }

  /** The chosen elements are those at the places `at`, in the order they have there. */
  ghost predicate StandAt<T>(all: seq<T>, chosen: seq<T>, at: seq<nat>) {
    && |at| == |chosen|
    && (forall k: nat | k < |at| :: at[k] < |all| && chosen[k] == all[at[k]])
    && forall j: nat, k: nat | j < k < |at| :: at[j] < at[k]
  }

  ghost predicate AllAt<T>(all: seq<T>, keep: T -> bool, at: seq<nat>) {
    forall i: nat | i < |all| :: keep(all[i]) <==> i in at
  }

  lemma PlacesNext<T>(before: seq<T>, x: T, keep: T -> bool, chosen: seq<T>, at: seq<nat>)
    requires StandAt(before, chosen, at) && AllAt(before, keep, at)
    ensures keep(x) ==>
              StandAt(before + [x], chosen + [x], at + [|before|]) && AllAt(before + [x], keep, at + [|before|])
    ensures !keep(x) ==> StandAt(before + [x], chosen, at) && AllAt(before + [x], keep, at)
  {
    forall i: nat | i < |before| ensures i in at + [|before|] <==> i in at {
    }
  }

  lemma NoPlaces<T(!new)>(keep: T -> bool)
    ensures StandAt([], Kept([], keep), []) && AllAt([], keep, [])
  {
  }

  lemma KeptPlaces<T(!new)>(before: seq<T>, x: T, keep: T -> bool, at: seq<nat>) returns (after: seq<nat>)
    requires StandAt(before, Kept(before, keep), at) && AllAt(before, keep, at)
    ensures StandAt(before + [x], Kept(before + [x], keep), after) && AllAt(before + [x], keep, after)
  {
    hide StandAt, AllAt, Kept;
    PlacesNext(before, x, keep, Kept(before, keep), at);
    KeptNext(before, x, keep);
    after := if keep(x) then at + [|before|] else at;
    assert Kept(before, keep) + [] == Kept(before, keep);
  }

  /** They are all the elements to keep, and in their order. */
  lemma {:induction false} KeptInOrder<T(!new)>(all: seq<T>, keep: T -> bool) returns (at: seq<nat>)
    ensures StandAt(all, Kept(all, keep), at) && AllAt(all, keep, at)
  {
    hide StandAt, AllAt, Kept;
    if all == [] {
      at := [];
      NoPlaces(keep);
    } else {
      var before, x := all[..|all| - 1], all[|all| - 1];
      at := KeptInOrder(before, keep);
      at := KeptPlaces(before, x, keep, at);
      assert all == before + [x];
    }
  }

  predicate IsAddress(r: Record) { r.body.A? }

  predicate IsNameServer(r: Record) { r.body.NS? }

  function Addresses(response: Option<Reply>): seq<string> {
    if response.None? then [] else AddressesOf(Kept(response.value.answer, IsAddress))
  }

  function AddressesOf(records: seq<Record>): (addresses: seq<string>)
    requires forall k :: 0 <= k < |records| ==> IsAddress(records[k])
    ensures |addresses| == |records|
  {
    seq(|records|, i requires 0 <= i < |records| => assert IsAddress(records[i]); records[i].body.address)
  }

  /** The NS records of the authority section. */
  function NameServers(ns: seq<Record>): (records: seq<Record>)
    ensures forall r :: r in records ==> r.body.NS?
  {
    Kept(ns, IsNameServer)
  }

  function Constructed(world: World, servers: seq<string>): seq<string> {
    Kept(servers, world.constructible)
  }

  /** The servers a zone's name server stands for: its IPv4 addresses, or itself when it has none. */
  function Candidates(world: World, nameServer: string): seq<string> {
    var r := Normalize(world.internal(nameServer));
    if r.err.None? && Addresses(r.response) != [] then Addresses(r.response) else [nameServer]
  }

  function AllCandidates(world: World, nameServers: seq<string>): seq<string> {
    if nameServers == [] then []
    else AllCandidates(world, nameServers[..|nameServers| - 1]) + Candidates(world, nameServers[|nameServers| - 1])
  }

  function InitialServers(world: World, nameServers: seq<string>, root: seq<string>): seq<string> {
    var servers := Constructed(world, AllCandidates(world, nameServers));
    if servers == [] then root else servers
  }

  predicate HasSuffix(s: string, suffix: string) {
    |suffix| <= |s| && s[|s| - |suffix|..] == suffix
  }

  /** The heuristic that ends a delegation without an authoritative answer. */
  predicate IsTerminalNegative(world: World, response: Reply, qname: string, qtype: uint16) {
    || response.head.rcode == RCODE_NXDOMAIN
    || (qtype != TYPE_SOA && response.answer == [] && exists i ::
          0 <= i < |response.ns| && NegativeOwner(world, response.ns[i], qname))
  }

  predicate NegativeOwner(world: World, record: Record, qname: string) {
    var owner := world.fqdn(record.owner);
    record.body.SOA? && world.fqdn(qname) != owner && HasSuffix(world.fqdn(qname), owner)
  }

  predicate IsFinal(world: World, response: Reply, qname: string, qtype: uint16) {
    response.head.authoritative || IsTerminalNegative(world, response, qname, qtype)
  }

  function Hosts(records: seq<Record>): (hosts: seq<string>)
    requires forall r :: r in records ==> r.body.NS?
    ensures |hosts| == |records|
  {
    seq(|records|, i requires 0 <= i < |records| => records[i].body.host)
  }

  predicate OwnsQuestion(world: World, records: seq<Record>, qname: string) {
    exists i :: 0 <= i < |records| && world.fqdn(records[i].owner) == world.fqdn(qname)
  }

  /** How a round ends: with an error, a final response, a response that refers nowhere useful, or a referral. */
  datatype RoundEnd = Failed | Final | Dead | Refers(servers: seq<string>)

  function Judge(world: World, answered: Result<Reply>, qname: string, qtype: uint16): RoundEnd
    requires answered.err.None? ==> answered.response.Some?
  {
    if answered.err.Some? then Failed
    else
      var response := answered.response.value;
      if IsFinal(world, response, qname, qtype) then Final
      else
        var records := NameServers(response.ns);
        if records == [] || (qtype == TYPE_NS && OwnsQuestion(world, records, qname)) then Dead
        else Refers(Constructed(world, Hosts(records)))
  }

  /** One round: the servers it may ask, its normalized result and the upstream lookups it made. */
  datatype Round = Round(servers: seq<string>, answered: Result<Reply>, lookups: nat)

  /** Attempt k of a round asks the server drawn. */
  function StepOf(world: World, round: nat, servers: seq<string>): nat -> Result<Reply>
    requires servers != []
  {
    (k: nat) => Normalize(world.answer(round, k, servers[world.draw(round, k) % |servers|]))
  }

  function ContextOf(world: World, round: nat): nat -> Option<Error> {
    (k: nat) => world.context(round, k)
  }

  ghost predicate RoundOk(world: World, i: nat, r: Round) {
    && r.servers != [] && (r.answered.err.None? ==> r.answered.response.Some?) && r.lookups <= |r.servers|
    && exists result :: r.answered == Normalize(result) &&
         Retry.Retried(|r.servers|, ContextOf(world, i), StepOf(world, i, r.servers), result, r.lookups)
  }

  /** A chain of rounds, each asking the servers the one before referred to. */
  ghost predicate Chain(world: World, qname: string, qtype: uint16, servers: seq<string>, rounds: seq<Round>) {
    && |rounds| <= MAX_DEPTH
    && (forall i: nat | i < |rounds| :: RoundOk(world, i, rounds[i]))
    && (rounds != [] ==> rounds[0].servers == servers)
    && forall i: nat | i + 1 < |rounds| ::
          Judge(world, rounds[i].answered, qname, qtype) == Refers(rounds[i + 1].servers)
  }

  function Waiting(world: World, qname: string, qtype: uint16, servers: seq<string>,
      rounds: seq<Round>): Option<seq<string>>
    requires rounds != [] ==> rounds[|rounds| - 1].answered.err.None? ==> rounds[|rounds| - 1].answered.response.Some?
  {
    if rounds == [] then Some(servers)
    else match Judge(world, rounds[|rounds| - 1].answered, qname, qtype)
      case Refers(next) => Some(next)
      case _ => None
  }

  function LastResponse(rounds: seq<Round>): Option<Reply> {
    if rounds == [] then None else rounds[|rounds| - 1].answered.response
  }

  /** How the delegation's result and its cache writes follow from its rounds. */
  ghost predicate Concluded(world: World, qname: string, qtype: uint16, servers: seq<string>, rounds: seq<Round>,
                            result: Result<Reply>, writes: seq<Reply>)
    requires Chain(world, qname, qtype, servers, rounds)
  {
    match Waiting(world, qname, qtype, servers, rounds)
    case Some(next) =>
      && writes == [] && (|rounds| == MAX_DEPTH || next == [])
      && result == Result(LastResponse(rounds), Some(if |rounds| == MAX_DEPTH then MaxRecursionDepth else NoResolver))
    case None =>
      var last := rounds[|rounds| - 1].answered;
      && result == last
      && writes == if Judge(world, last, qname, qtype) == Final then [last.response.value] else []
  }

  lemma NoneConstructed(world: World)
    ensures Constructed(world, []) == []
  {
  }

  lemma ConstructedNext(world: World, servers: seq<string>, x: string)
    ensures Constructed(world, servers + [x]) ==
            Constructed(world, servers) + if world.constructible(x) then [x] else []
  {
    KeptNext(servers, x, world.constructible);
  }

  lemma CandidatesNext(world: World, nameServers: seq<string>, i: nat)
    requires i < |nameServers|
    ensures AllCandidates(world, nameServers[..i + 1]) == AllCandidates(world, nameServers[..i])
        + Candidates(world, nameServers[i])
  {
    assert nameServers[..i + 1][..i] == nameServers[..i];
  }

  /** Appends the candidates a resolver can be built for to those of the name servers before. */
  method AppendCandidates(world: World, before: Slice, ghost sofar: seq<string>, candidates: seq<string>)
    returns (servers: Slice)
    requires before.Valid() && before.Elements() == Constructed(world, sofar)
    modifies before.data
    ensures servers.Valid() && (servers.data == before.data || fresh(servers.data))
    ensures servers.Elements() == Constructed(world, sofar + candidates)
  {
    hide Constructed;
    servers := before;
    assert sofar + candidates[..0] == sofar;
    for j := 0 to |candidates|
      invariant servers.Valid() && (servers.data == before.data || fresh(servers.data))
      invariant servers.Elements() == Constructed(world, sofar + candidates[..j])
    {
      ConstructedNext(world, sofar + candidates[..j], candidates[j]);
      assert sofar + candidates[..j + 1] == sofar + candidates[..j] + [candidates[j]];
      if world.constructible(candidates[j]) {
        servers := Append(servers, candidates[j]);
      }
    }
    assert sofar + candidates[..|candidates|] == sofar + candidates;
  }

  /** The servers of the zone, appended one by one; without any, a copy of the root servers. */
  method CollectServers(world: World, nameServers: seq<string>, root: array<string>) returns (servers: Slice)
    ensures servers.Valid() && fresh(servers.data)
    ensures servers.Elements() == InitialServers(world, nameServers, root[..])
  {
    var data := new string[|nameServers|];
    servers := Slice(data, 0);
    for i := 0 to |nameServers|
      invariant servers.Valid() && fresh(servers.data)
      invariant servers.Elements() == Constructed(world, AllCandidates(world, nameServers[..i]))
    {
      CandidatesNext(world, nameServers, i);
      servers := AppendCandidates(world, servers, AllCandidates(world, nameServers[..i]),
          Candidates(world, nameServers[i]));
    }
    assert nameServers[..|nameServers|] == nameServers;
    if servers.len == 0 {
      servers := Clone(root);
    }
  }

  /** Refills the slice from its start with the servers of a referral, or finds that the referral is dead. */
  method Refer(world: World, records: seq<Record>, qname: string, qtype: uint16, servers: Slice)
    returns (next: Slice, dead: bool)
    requires servers.Valid() && forall r :: r in records ==> r.body.NS?
    modifies servers.data
    ensures next.Valid() && (next.data == servers.data || fresh(next.data))
    ensures dead <==> qtype == TYPE_NS && OwnsQuestion(world, records, qname)
    ensures !dead ==> next.Elements() == Constructed(world, Hosts(records))
  {
    hide Constructed;
    next, dead := Slice(servers.data, 0), false;
    NoneConstructed(world);
    var hosts := Hosts(records);
    for i := 0 to |records|
      invariant next.Valid() && (next.data == servers.data || fresh(next.data))
      invariant next.Elements() == Constructed(world, hosts[..i])
      invariant qtype == TYPE_NS ==> forall j :: 0 <= j < i ==> world.fqdn(records[j].owner) != world.fqdn(qname)
    {
      if qtype == TYPE_NS && world.fqdn(records[i].owner) == world.fqdn(qname) { return next, true; }
      ConstructedNext(world, hosts[..i], hosts[i]);
      assert hosts[..i + 1] == hosts[..i] + [hosts[i]];
      if world.constructible(hosts[i]) {
        next := Append(next, hosts[i]);
      }
    }
    assert hosts[..|records|] == hosts;
  }

  /** The delegation loop over a slice that only this call owns. */
  method Delegate(world: World, qname: string, qtype: uint16, initial: Slice)
    returns (result: Result<Reply>, writes: seq<Reply>, ghost rounds: seq<Round>)
    requires initial.Valid()
    modifies initial.data
    ensures Chain(world, qname, qtype, old(initial.Elements()), rounds)
    ensures Concluded(world, qname, qtype, old(initial.Elements()), rounds, result, writes)
  {
    hide IsFinal, Retry.Retried, StepOf, ContextOf, Constructed, Hosts, OwnsQuestion, NameServers;
    var servers := initial;
    var lastResponse: Option<Reply> := None;
    ghost var first := servers.Elements();
    rounds, writes := [], [];
    for depth := 0 to MAX_DEPTH
      invariant servers.Valid() && (servers.data == initial.data || fresh(servers.data))
      invariant |rounds| == depth && Chain(world, qname, qtype, first, rounds)
      invariant Waiting(world, qname, qtype, first, rounds) == Some(servers.Elements())
      invariant lastResponse == LastResponse(rounds) && writes == []
    {
      if servers.len == 0 { return Result(lastResponse, Some(NoResolver)), [], rounds; }
      var members := servers.data[..servers.len];
      var answered, lookups := Retry.RetryLookup(|members|, ContextOf(world, depth), StepOf(world, depth, members));
      CallsBounded(|members|, ContextOf(world, depth), StepOf(world, depth, members), answered, lookups);
      answered := Normalize(answered);
      assert RoundOk(world, depth, Round(members, answered, lookups));
      rounds := rounds + [Round(members, answered, lookups)];
      if answered.err.Some? { return answered, [], rounds; }
      var response := answered.response.value;
      lastResponse := answered.response;
      if IsFinal(world, response, qname, qtype) { return answered, [response], rounds; }
      var records := NameServers(response.ns);
      if |records| == 0 { return answered, [], rounds; }
      var dead: bool;
      servers, dead := Refer(world, records, qname, qtype, servers);
      if dead { return answered, [], rounds; }
    }
    result := Result(lastResponse, Some(MaxRecursionDepth));
  }

  lemma CallsBounded<R>(retry: nat, context: nat -> Option<Error>, step: nat -> Result<R>, result: Result<R>,
      calls: nat)
    requires Retry.Retried(retry, context, step, result, calls)
    ensures calls <= retry
  {
  }

  /** The whole lookup: a cache hit, an unknown zone, or the delegation; the root servers are only ever copied. */
  method RecursiveLookup(world: World, qname: string, qtype: uint16, root: array<string>)
    returns (result: Result<Reply>, writes: seq<Reply>, ghost rounds: seq<Round>)
    ensures root[..] == old(root[..])
    ensures world.cached.Some? ==> result == Result(world.cached, None) && writes == [] && rounds == []
    ensures world.cached.None? && world.zone.None? ==>
              result == Result(Some(Reply(Head(RCODE_NXDOMAIN, false, false, [qtype]), [], [], [])), None)
                  && writes == [] && rounds == []
    ensures world.cached.None? && world.zone.Some? ==>
              var servers := InitialServers(world, world.zone.value, root[..]);
              Chain(world, qname, qtype, servers, rounds)
                  && Concluded(world, qname, qtype, servers, rounds, result, writes)
  {
    if world.cached.Some? { return Result(world.cached, None), [], []; }
    if world.zone.None? {
      return Result(Some(Reply(Head(RCODE_NXDOMAIN, false, false, [qtype]), [], [], [])), None), [], [];
    }
    var servers := CollectServers(world, world.zone.value, root);
    result, writes, rounds := Delegate(world, qname, qtype, servers);
  }

  // ---- What every delegation keeps

  /** The depth error is the function's own exactly when sixteen rounds all ended in referrals. */
  lemma DepthErrorExactly(world: World, qname: string, qtype: uint16, servers: seq<string>, rounds: seq<Round>,
      result: Result<Reply>, writes: seq<Reply>)
    requires Chain(world, qname, qtype, servers, rounds)
        && Concluded(world, qname, qtype, servers, rounds, result, writes)
    requires forall i: nat | i < |rounds| :: rounds[i].answered.err != Some(MaxRecursionDepth)
    ensures result.err == Some(MaxRecursionDepth) <==>
              |rounds| == 16 && forall i: nat | i < 16 :: Judge(world, rounds[i].answered, qname, qtype).Refers?
  {
    hide IsFinal, Constructed, OwnsQuestion, Retry.Retried;
    if |rounds| == 16 {
      forall i: nat | i < 15 ensures Judge(world, rounds[i].answered, qname, qtype).Refers? {
        assert Judge(world, rounds[i].answered, qname, qtype) == Refers(rounds[i + 1].servers);
      }
      assert result.err == Some(MaxRecursionDepth) <==> Judge(world, rounds[15].answered, qname, qtype).Refers?;
    }
  }

  /** The cache is written at most once, with the response returned, and only if that is authoritative or terminal. */
  lemma WritesAreFinal(world: World, qname: string, qtype: uint16, servers: seq<string>, rounds: seq<Round>,
      result: Result<Reply>, writes: seq<Reply>)
    requires Chain(world, qname, qtype, servers, rounds)
        && Concluded(world, qname, qtype, servers, rounds, result, writes)
    ensures writes != [] <==>
              result.err.None? && (result.response.value.head.authoritative
                  || IsTerminalNegative(world, result.response.value, qname, qtype))
    ensures writes != [] ==> writes == [result.response.value]
  {
    hide IsTerminalNegative;
    if rounds != [] { assert RoundOk(world, |rounds| - 1, rounds[|rounds| - 1]); }
  }

  function TotalLookups(rounds: seq<Round>): nat {
    if rounds == [] then 0 else TotalLookups(rounds[..|rounds| - 1]) + rounds[|rounds| - 1].lookups
  }

  function TotalServers(rounds: seq<Round>): nat {
    if rounds == [] then 0 else TotalServers(rounds[..|rounds| - 1]) + |rounds[|rounds| - 1].servers|
  }

  lemma {:induction false} TotalsBounded(rounds: seq<Round>)
    requires forall i: nat | i < |rounds| :: rounds[i].lookups <= |rounds[i].servers|
    ensures TotalLookups(rounds) <= TotalServers(rounds)
  {
    if rounds != [] {
      var before := rounds[..|rounds| - 1];
      assert forall i: nat | i < |before| :: before[i] == rounds[i];
      TotalsBounded(before);
    }
  }

  /** At most sixteen rounds, none with more upstream lookups than it has servers. */
  lemma LookupsBounded(world: World, qname: string, qtype: uint16, servers: seq<string>, rounds: seq<Round>)
    requires Chain(world, qname, qtype, servers, rounds)
    ensures |rounds| <= 16 && forall i: nat | i < |rounds| :: rounds[i].lookups <= |rounds[i].servers|
    ensures TotalLookups(rounds) <= TotalServers(rounds)
  {
    hide Judge, Retry.Retried;
    forall i: nat | i < |rounds| ensures rounds[i].lookups <= |rounds[i].servers| {
      assert RoundOk(world, i, rounds[i]);
    }
    TotalsBounded(rounds);
  }

  // ---- What the parts of the delegation are

  /** Each name server contributes its own candidates, in order. */
  lemma {:induction false} CandidatesAdd(world: World, xs: seq<string>, ys: seq<string>)
    ensures AllCandidates(world, xs + ys) == AllCandidates(world, xs) + AllCandidates(world, ys)
  {
    hide Candidates;
    if ys == [] {
      assert xs + ys == xs;
    } else {
      var before, y := ys[..|ys| - 1], ys[|ys| - 1];
      CandidatesAdd(world, xs, before);
      assert (xs + ys)[..|xs + ys| - 1] == xs + before;
    }
  }

  /** They are all the addresses its lookup answers, in order, or its own name when there are none. */
  lemma CandidatesAre(world: World, nameServer: string)
    ensures AllCandidates(world, [nameServer]) == Candidates(world, nameServer)
    ensures var r := Normalize(world.internal(nameServer));
      if r.err.None? && exists x :: x in r.response.value.answer && x.body.A? then
        var records := Kept(r.response.value.answer, IsAddress);
        && |Candidates(world, nameServer)| == |records|
        && forall k: nat | k < |records| ::
              records[k].body.A? && Candidates(world, nameServer)[k] == records[k].body.address
      else
        Candidates(world, nameServer) == [nameServer]
  {
    assert [nameServer][..0] == [];
    var r := Normalize(world.internal(nameServer));
    if r.err.None? {
      var records := Kept(r.response.value.answer, IsAddress);
      if x :| x in r.response.value.answer && x.body.A? { assert IsAddress(x); }
      assert forall k: nat | k < |records| :: records[k] in records;
    }
  }

  /** The root servers stand in exactly when no resolver can be built for any candidate of the zone. */
  lemma RootsStandIn(world: World, nameServers: seq<string>, root: seq<string>)
    ensures var candidates := AllCandidates(world, nameServers);
      InitialServers(world, nameServers, root) ==
      if exists x :: x in candidates && world.constructible(x) then Kept(candidates, world.constructible) else root
  {
  }

  lemma OwnerExactly(world: World, r: Record, qname: string)
    ensures NegativeOwner(world, r, qname) <==> (r.body.SOA? && Below(world.fqdn(qname), world.fqdn(r.owner)))
  {
    SuffixExactly(world.fqdn(qname), world.fqdn(r.owner));
  }

  /** A negative answer ends the delegation: no such name, or no data below the owner of a SOA record. */
  lemma TerminalExactly(world: World, response: Reply, qname: string, qtype: uint16)
    ensures IsTerminalNegative(world, response, qname, qtype) <==>
              response.head.rcode == 3
              || (qtype != 6 && response.answer == []
                  && exists r :: r in response.ns && r.body.SOA? && Below(world.fqdn(qname), world.fqdn(r.owner)))
  {
    forall r: Record { OwnerExactly(world, r, qname); }
    if i :| 0 <= i < |response.ns| && NegativeOwner(world, response.ns[i],
        qname) { assert response.ns[i] in response.ns; }
    if r :| r in response.ns && r.body.SOA? && Below(world.fqdn(qname), world.fqdn(r.owner)) {
      var i :| 0 <= i < |response.ns| && response.ns[i] == r;
      assert NegativeOwner(world, response.ns[i], qname);
    }
  }

  /** The name ends in the owner, after something more. */
  ghost predicate Below(name: string, owner: string) {
    exists prefix :: prefix != "" && name == prefix + owner
  }

  lemma SuffixExactly(name: string, owner: string)
    ensures name != owner && HasSuffix(name, owner) <==> Below(name, owner)
  {
    if name != owner && HasSuffix(name, owner) {
      assert name == name[..|name| - |owner|] + owner;
      assert name[..|name| - |owner|] != "" || name == owner;
    }
    if prefix :| prefix != "" && name == prefix + owner {
      assert |name| > |owner| && name[|name| - |owner|..] == owner;
    }
  }

  /** How a round is judged: an error, a final response, a response that refers nowhere below, or a referral. */
  lemma JudgedExactly(world: World, answered: Result<Reply>, qname: string, qtype: uint16)
    requires answered.err.None? ==> answered.response.Some?
    ensures var j := Judge(world, answered, qname, qtype);
      && (j.Failed? <==> answered.err.Some?)
      && (answered.err.None? ==>
            var response := answered.response.value;
            var final := response.head.authoritative || IsTerminalNegative(world, response, qname, qtype);
            var own := exists r :: r in response.ns && r.body.NS? && world.fqdn(r.owner) == world.fqdn(qname);
            && (j.Final? <==> final)
            && (j.Dead? <==>
                  !final && ((forall r :: r in response.ns ==> !r.body.NS?) || (qtype == 2 && own)))
            && (j.Refers? ==> j.servers == Constructed(world, Hosts(NameServers(response.ns)))))
  {
    hide IsTerminalNegative, Constructed, NameServers, OwnsQuestion, Hosts;
    if answered.err.None? { NameServersKnow(world, answered.response.value.ns, qname); }
  }

  lemma NameServersKnow(world: World, ns: seq<Record>, qname: string)
    ensures NameServers(ns) == [] <==> forall r :: r in ns ==> !r.body.NS?
    ensures OwnsQuestion(world, NameServers(ns), qname) <==>
              exists r :: r in ns && r.body.NS? && world.fqdn(r.owner) == world.fqdn(qname)
  {
    var records := Kept(ns, IsNameServer);
    if r :| r in ns && r.body.NS? && world.fqdn(r.owner) == world.fqdn(qname) {
      KeptHas(ns, IsNameServer, r);
      var k :| 0 <= k < |records| && records[k] == r;
    }
    if r :| r in ns && r.body.NS? { assert IsNameServer(r); }
  }

  lemma {:induction false} KeptHas<T(!new)>(all: seq<T>, keep: T -> bool, x: T)
    requires x in all && keep(x)
    ensures x in Kept(all, keep)
  {
    var before := all[..|all| - 1];
    if x in before { KeptHas(before, keep, x); }
  }
}
