/** How long a reply may be cached, and what TTL a cached reply is served with. Durations are nanoseconds. */
module CacheTtl {
  import opened Lookups
  import opened Dns

  const SECOND: int := 1_000_000_000
  const SERVFAIL_MAX := 30 * SECOND

  datatype Options = Options(defaultTTL: int, minTTL: int, maxTTL: int)

  predicate ValidOptions(o: Options) {
    0 <= o.defaultTTL && 0 <= o.minTTL && 0 <= o.maxTTL && (o.maxTTL > 0 ==> o.minTTL <= o.maxTTL)
  }

  function Least(x: uint32, y: uint32): uint32 {
    if x < y then x else y
  }

  // ---- Negative responses

  predicate HasNameServer(ns: seq<Record>) {
    exists i :: 0 <= i < |ns| && ns[i].body.NS?
  }

  /** The lifetime a SOA record allows, by section 5 of RFC 2308. */
  function SoaTTL(r: Record): uint32
    requires r.body.SOA?
  {
    Least(r.ttl, r.body.minimum)
  }

  function LeastSoa(ns: seq<Record>): Option<uint32> {
    if ns == [] then None
    else
      var before, r := LeastSoa(ns[..|ns| - 1]), ns[|ns| - 1];
      if !r.body.SOA? then before
      else if before.None? then Some(SoaTTL(r))
      else Some(Least(before.value, SoaTTL(r)))
  }

  ghost predicate IsLeastSoa(ns: seq<Record>, least: uint32) {
    && (exists r :: r in ns && r.body.SOA? && SoaTTL(r) == least)
    && (forall r :: r in ns && r.body.SOA? ==> least <= SoaTTL(r))
  }

  lemma {:induction false} LeastSoaMeaning(ns: seq<Record>)
    ensures LeastSoa(ns).None? <==> forall r :: r in ns ==> !r.body.SOA?
    ensures LeastSoa(ns).Some? ==> IsLeastSoa(ns, LeastSoa(ns).value)
  {
    if ns != [] {
      var before, r := ns[..|ns| - 1], ns[|ns| - 1];
      LeastSoaMeaning(before);
      assert ns == before + [r];
      assert forall x :: x in ns <==> x in before || x == r;
      if LeastSoa(before).Some? {
        var w :| w in before && w.body.SOA? && SoaTTL(w) == LeastSoa(before).value;
        assert w in ns;
      }
    }
  }

  /** NXDOMAIN and NODATA replies live as long as their SOA records allow; a referral is neither. */
  function NegativeTTL(ns: seq<Record>): Option<int> {
    if HasNameServer(ns) || LeastSoa(ns).None? then None else Some(LeastSoa(ns).value * SECOND)
  }

  method NegativeResponseTTL(ns: seq<Record>) returns (ttl: int, ok: bool)
    ensures ok <==> NegativeTTL(ns).Some?
    ensures ttl == if ok then NegativeTTL(ns).value else 0
  {
    var minimum: uint32, foundSOA := MAX_UINT32, false;
    for i := 0 to |ns|
      invariant !HasNameServer(ns[..i])
      invariant foundSOA <==> LeastSoa(ns[..i]).Some?
      invariant minimum == if foundSOA then LeastSoa(ns[..i]).value else MAX_UINT32
    {
      assert ns[..i + 1][..i] == ns[..i] && ns[..i + 1][i] == ns[i];
      match ns[i].body {
        case NS(_) => return 0, false;
        case SOA(limit) =>
          foundSOA := true;
          var ttl := Least(ns[i].ttl, limit);
          if ttl < minimum { minimum := ttl; }
        case _ =>
      }
    }
    assert ns[..|ns|] == ns;
    if !foundSOA || minimum == 0 { return 0, foundSOA; }
    return minimum * SECOND, true;
  }

  // ---- Positive responses

  function LeastTTL(records: seq<Record>): Option<uint32> {
    if records == [] then None
    else
      var before, r := LeastTTL(records[..|records| - 1]), records[|records| - 1];
      if r.rrtype == TYPE_OPT then before
      else if before.None? then Some(r.ttl)
      else Some(Least(before.value, r.ttl))
  }

  ghost predicate IsLeastTTL(records: seq<Record>, least: uint32) {
    && (exists r :: r in records && r.rrtype != TYPE_OPT && r.ttl == least)
    && (forall r :: r in records && r.rrtype != TYPE_OPT ==> least <= r.ttl)
  }

  lemma {:induction false} LeastTTLMeaning(records: seq<Record>)
    ensures LeastTTL(records).None? <==> forall r :: r in records ==> r.rrtype == TYPE_OPT
    ensures LeastTTL(records).Some? ==> IsLeastTTL(records, LeastTTL(records).value)
  {
    if records != [] {
      var before, r := records[..|records| - 1], records[|records| - 1];
      LeastTTLMeaning(before);
      assert records == before + [r];
      assert forall x :: x in records <==> x in before || x == r;
      if LeastTTL(before).Some? {
        var w :| w in before && w.rrtype != TYPE_OPT && w.ttl == LeastTTL(before).value;
        assert w in records;
      }
    }
  }

  function AllRecords(reply: Reply): seq<Record> {
    reply.answer + reply.ns + reply.extra
  }

  /** The least TTL of all sections; zero when there is none to go by, or only the largest there is. */
  function MinimumTTL(reply: Reply): int {
    match LeastTTL(AllRecords(reply))
    case Some(least) => if least == MAX_UINT32 then 0 else least * SECOND
    case None => 0
  }

  method MinimumResponseTTL(reply: Reply) returns (ttl: int)
    ensures ttl == MinimumTTL(reply)
  {
    var minimum: uint32 := MAX_UINT32;
    var sections := [reply.answer, reply.ns, reply.extra];
    ghost var met: seq<Record> := [];
    for s := 0 to 3
      invariant met == (if s >= 1 then reply.answer else []) + (if s >= 2 then reply.ns else [])
                       + if s >= 3 then reply.extra else []
      invariant minimum == LeastTTL(met).GetOr(MAX_UINT32)
    {
      minimum := ScanSection(sections[s], met, minimum);
      met := met + sections[s];
    }
    if minimum == MAX_UINT32 || minimum == 0 { return 0; }
    return minimum * SECOND;
  }

  /** One section's part of the search for the least TTL, after the records `met` before. */
  method ScanSection(section: seq<Record>, ghost met: seq<Record>, least: uint32) returns (minimum: uint32)
    requires least == LeastTTL(met).GetOr(MAX_UINT32)
    ensures minimum == LeastTTL(met + section).GetOr(MAX_UINT32)
  {
    minimum := least;
    assert met + section[..0] == met;
    for i := 0 to |section|
      invariant minimum == LeastTTL(met + section[..i]).GetOr(MAX_UINT32)
    {
      assert (met + section[..i + 1])[..|met| + i] == met + section[..i];
      if section[i].rrtype != TYPE_OPT && section[i].ttl < minimum { minimum := section[i].ttl; }
    }
    assert section[..|section|] == section;
  }

  predicate HasAddress(answer: seq<Record>, qtype: uint16) {
    exists i :: 0 <= i < |answer| && ((qtype == TYPE_A && answer[i].body.A?)
        || (qtype == TYPE_AAAA && answer[i].body.AAAA?))
  }

  method HasAddressAnswer(answer: seq<Record>, qtype: uint16) returns (found: bool)
    ensures found <==> HasAddress(answer, qtype)
  {
    for i := 0 to |answer|
      invariant !HasAddress(answer[..i], qtype)
    {
      match answer[i].body {
        case A(_) => if qtype == TYPE_A { return true; }
        case AAAA => if qtype == TYPE_AAAA { return true; }
        case _ =>
      }
    }
    assert answer[..|answer|] == answer;
    found := false;
  }

  // ---- The policy

  function Positive(ttl: int): Option<int> {
    if ttl > 0 then Some(ttl) else None
  }

  /** The lifetime a cacheable reply asks for. */
  function CacheTTL(reply: Reply, defaultTTL: int): Option<int> {
    if reply.head.truncated || |reply.head.questions| != 1 then None
    else if reply.head.rcode == RCODE_SUCCESS then
      if reply.answer == [] && NegativeTTL(reply.ns).Some? then Positive(NegativeTTL(reply.ns).value)
      else
        var qtype := reply.head.questions[0];
        if (qtype == TYPE_A || qtype == TYPE_AAAA) && !HasAddress(reply.answer, qtype) then None
        else Positive(MinimumTTL(reply))
    else if reply.head.rcode == RCODE_NXDOMAIN then
      if NegativeTTL(reply.ns).Some? then Positive(NegativeTTL(reply.ns).value) else None
    else if reply.head.rcode == RCODE_SERVFAIL then
      var ttl := if MinimumTTL(reply) == 0 then defaultTTL else MinimumTTL(reply);
      Positive(if ttl > SERVFAIL_MAX then SERVFAIL_MAX else ttl)
    else None
  }

  function Overridden(ttl: int, minTTL: int, maxTTL: int): int {
    var raised := if minTTL > 0 && ttl < minTTL then minTTL else ttl;
    if maxTTL > 0 && raised > maxTTL then maxTTL else raised
  }

  /** The lifetime a reply is stored for, or none when it is not stored. */
  function Lifetime(o: Options, reply: Reply): Option<int> {
    match CacheTTL(reply, o.defaultTTL)
    case None => None
    case Some(ttl) =>
      var bounded := Overridden(ttl, o.minTTL, o.maxTTL);
      Some(if reply.head.rcode == RCODE_SERVFAIL && bounded > SERVFAIL_MAX then SERVFAIL_MAX else bounded)
  }

  method ComputeCacheTTL(reply: Reply, defaultTTL: int) returns (ttl: int, ok: bool)
    ensures ok <==> CacheTTL(reply, defaultTTL).Some?
    ensures ok ==> ttl == CacheTTL(reply, defaultTTL).value
  {
    if reply.head.truncated || |reply.head.questions| != 1 { return 0, false; }
    if reply.head.rcode == RCODE_SUCCESS {
      if |reply.answer| == 0 {
        var negative, found := NegativeResponseTTL(reply.ns);
        if found { return negative, negative > 0; }
      }
      var qtype := reply.head.questions[0];
      var hasAddress := HasAddressAnswer(reply.answer, qtype);
      if (qtype == TYPE_A || qtype == TYPE_AAAA) && !hasAddress { return 0, false; }
      ttl := MinimumResponseTTL(reply);
      return ttl, ttl > 0;
    } else if reply.head.rcode == RCODE_NXDOMAIN {
      ttl, ok := NegativeResponseTTL(reply.ns);
      return ttl, ok && ttl > 0;
    } else if reply.head.rcode == RCODE_SERVFAIL {
      ttl := MinimumResponseTTL(reply);
      if ttl == 0 { ttl := defaultTTL; }
      if ttl > SERVFAIL_MAX { ttl := SERVFAIL_MAX; }
      return ttl, ttl > 0;
    }
    return 0, false;
  }

  /**
   * Every stored lifetime is positive and inside the configured bounds; a server failure's never exceeds 30
   * seconds.
   */
  lemma LifetimeBounds(o: Options, reply: Reply)
    requires ValidOptions(o) && Lifetime(o, reply).Some?
    ensures var l := Lifetime(o, reply).value;
      && l > 0
      && (o.maxTTL > 0 ==> l <= o.maxTTL)
      && (o.minTTL > 0 && reply.head.rcode != RCODE_SERVFAIL ==> l >= o.minTTL)
      && (reply.head.rcode == RCODE_SERVFAIL ==> l <= SERVFAIL_MAX)
  {
    hide MinimumTTL, NegativeTTL, HasAddress;
  }

  /** The negative lifetime is exactly the least SOA allowance, and any NS record refuses it. */
  lemma NegativeExactly(ns: seq<Record>)
    ensures NegativeTTL(ns).Some? <==> (exists r :: r in ns && r.body.SOA?) && !(exists r :: r in ns && r.body.NS?)
    ensures NegativeTTL(ns).Some? ==>
              exists least: uint32 :: NegativeTTL(ns).value == least * SECOND && IsLeastSoa(ns, least)
  {
    LeastSoaMeaning(ns);
    if HasNameServer(ns) {
      var i :| 0 <= i < |ns| && ns[i].body.NS?;
      assert ns[i] in ns;
    } else {
      assert forall r :: r in ns ==> !r.body.NS?;
    }
  }

  lemma SameElements(xs: seq<Record>, ys: seq<Record>)
    requires multiset(xs) == multiset(ys)
    ensures forall r :: r in xs <==> r in ys
    ensures xs == [] <==> ys == []
  {
    assert forall r :: (r in xs <==> r in multiset(xs)) && (r in ys <==> r in multiset(ys));
    assert |multiset(xs)| == |xs| && |multiset(ys)| == |ys|;
  }

  lemma NegativePermuted(xs: seq<Record>, ys: seq<Record>)
    requires forall r :: r in xs <==> r in ys
    ensures NegativeTTL(xs) == NegativeTTL(ys)
  {
    NegativeExactly(xs);
    NegativeExactly(ys);
  }

  lemma LeastPermuted(xs: seq<Record>, ys: seq<Record>)
    requires forall r :: r in xs <==> r in ys
    ensures LeastTTL(xs) == LeastTTL(ys)
  {
    LeastTTLMeaning(xs);
    LeastTTLMeaning(ys);
  }

  lemma AddressPermuted(xs: seq<Record>, ys: seq<Record>, qtype: uint16)
    requires forall r :: r in xs <==> r in ys
    requires HasAddress(xs, qtype)
    ensures HasAddress(ys, qtype)
  {
    var i :| 0 <= i < |xs| && ((qtype == TYPE_A && xs[i].body.A?) || (qtype == TYPE_AAAA && xs[i].body.AAAA?));
    assert xs[i] in ys;
    var j :| 0 <= j < |ys| && ys[j] == xs[i];
  }

  /** The policy does not depend on the order of the records in any section. */
  lemma LifetimeOrderFree(o: Options, reply: Reply, answer: seq<Record>, ns: seq<Record>, extra: seq<Record>)
    requires multiset(reply.answer) == multiset(answer) && multiset(reply.ns) == multiset(ns)
        && multiset(reply.extra) == multiset(extra)
    ensures Lifetime(o, Reply(reply.head, answer, ns, extra)) == Lifetime(o, reply)
  {
    hide HasAddress, NegativeTTL, LeastTTL;
    var other := Reply(reply.head, answer, ns, extra);
    SameElements(reply.answer, answer);
    SameElements(reply.ns, ns);
    SameElements(reply.extra, extra);
    NegativePermuted(reply.ns, ns);
    assert forall r :: r in AllRecords(reply) <==> r in AllRecords(other);
    LeastPermuted(AllRecords(reply), AllRecords(other));
    if |reply.head.questions| == 1 {
      var qtype := reply.head.questions[0];
      if HasAddress(reply.answer, qtype) { AddressPermuted(reply.answer, answer, qtype); }
      if HasAddress(answer, qtype) { AddressPermuted(answer, reply.answer, qtype); }
    }
  }

  // ---- Serving

  /** Whole seconds, rounded up, within 32 bits. */
  function DurationToTTL(d: int): uint32
    requires d > 0
  {
    var seconds := (d + SECOND - 1) / SECOND;
    if seconds > MAX_UINT32 then MAX_UINT32 else seconds
  }

  lemma DurationCeiling(d: int)
    requires d > 0
    ensures DurationToTTL(d) >= 1
    ensures DurationToTTL(d) < MAX_UINT32 ==> (DurationToTTL(d) - 1) * SECOND < d <= DurationToTTL(d) * SECOND
    ensures DurationToTTL(d) == MAX_UINT32 ==> d > (MAX_UINT32 - 1) * SECOND
  {
  }

  function AgedRecord(r: Record, ttl: uint32): Record {
    if r.rrtype == TYPE_OPT then r else r.(ttl := ttl)
  }

  function AgedRecords(records: seq<Record>, ttl: uint32): (aged: seq<Record>)
    ensures |aged| == |records|
  {
    seq(|records|, i requires 0 <= i < |records| => AgedRecord(records[i], ttl))
  }

  /** A reply with the TTL of every record but OPT replaced. */
  function Aged(reply: Reply, ttl: uint32): Reply {
    Reply(reply.head, AgedRecords(reply.answer, ttl), AgedRecords(reply.ns, ttl), AgedRecords(reply.extra, ttl))
  }

  /** Two hits of one entry, below the cap, differ by the elapsed seconds rounded down or up. */
  lemma HitsDiffer(expiry: int, first: int, second: int)
    requires first <= second < expiry && DurationToTTL(expiry - first) < MAX_UINT32
    ensures var fewer := DurationToTTL(expiry - first) - DurationToTTL(expiry - second);
            var elapsed := second - first;
            fewer == elapsed / SECOND || fewer == (elapsed + SECOND - 1) / SECOND
  {
  }

  /** A NOERROR reply stored for its least TTL is never served with a TTL above any record's own. */
  lemma NeverServedLonger(o: Options, reply: Reply, stored: int, now: int, r: Record)
    requires ValidOptions(o) && o.minTTL == 0 && Lifetime(o, reply).Some?
    requires reply.head.rcode == RCODE_SUCCESS && (reply.answer != [] || NegativeTTL(reply.ns).None?)
    requires stored <= now < stored + Lifetime(o, reply).value
    requires r in AllRecords(reply) && r.rrtype != TYPE_OPT
    ensures DurationToTTL(stored + Lifetime(o, reply).value - now) <= r.ttl
  {
    hide HasAddress, NegativeTTL, LeastTTL;
    LeastTTLMeaning(AllRecords(reply));
    assert Lifetime(o, reply).value <= MinimumTTL(reply) <= r.ttl * SECOND;
  }

  /** The seconds left, rounded up, within 32 bits. */
  predicate IsCeiling(ttl: uint32, remaining: int) {
    ttl >= 1 &&
    if ttl == 0xFFFF_FFFF then remaining > (ttl - 1) * 1_000_000_000
    else (ttl - 1) * 1_000_000_000 < remaining <= ttl * 1_000_000_000
  }

  /** A record as a cache serves it: unchanged but for the TTL, and an OPT record altogether. */
  predicate ServedRecord(served: Record, stored: Record, remaining: int) {
    && served.owner == stored.owner && served.rrtype == stored.rrtype && served.body == stored.body
    && if stored.rrtype == 41 then served.ttl == stored.ttl else IsCeiling(served.ttl, remaining)
  }

  ghost predicate ServedSection(served: seq<Record>, stored: seq<Record>, remaining: int) {
    |served| == |stored| && forall k: nat | k < |stored| :: ServedRecord(served[k], stored[k], remaining)
  }

  ghost predicate ServedReply(served: Reply, stored: Reply, remaining: int) {
    && served.head == stored.head
    && ServedSection(served.answer, stored.answer, remaining)
    && ServedSection(served.ns, stored.ns, remaining)
    && ServedSection(served.extra, stored.extra, remaining)
  }

  /** Ageing changes exactly the TTLs of records other than OPT, to the seconds left. */
  lemma AgedIsServed(reply: Reply, remaining: int)
    requires remaining > 0
    ensures ServedReply(Aged(reply, DurationToTTL(remaining)), reply, remaining)
  {
    DurationCeiling(remaining);
  }

  /** The seconds left are one number, and between two moments they fall by the time between, rounded down or up. */
  lemma CeilingsFall(early: uint32, late: uint32, remaining: int, elapsed: int)
    requires IsCeiling(early, remaining) && early < 0xFFFF_FFFF && 0 <= elapsed < remaining
    requires IsCeiling(late, remaining - elapsed)
    ensures early - late == elapsed / 1_000_000_000 || early - late == (elapsed + 999_999_999) / 1_000_000_000
  {
  }

  // ---- Which replies are stored, and for how long

  ghost predicate Has(records: seq<Record>, p: Record -> bool) {
    exists r :: r in records && p(r)
  }

  /** The kinds of a record body, by the Go types. */
  predicate IsSoa(r: Record) { r.body.SOA? }

  predicate IsNs(r: Record) { r.body.NS? }

  predicate IsA(r: Record) { r.body.A? }

  predicate IsAaaa(r: Record) { r.body.AAAA? }

  /** A negative reply by section 5 of RFC 2308: no such name or no data, with a SOA record, and no referral. */
  ghost predicate IsNegative(reply: Reply) {
    && (reply.head.rcode == 3 || (reply.head.rcode == 0 && reply.answer == []))
    && Has(reply.ns, IsSoa) && !Has(reply.ns, IsNs)
  }

  ghost predicate LacksAddress(reply: Reply)
    requires |reply.head.questions| == 1
  {
    || (reply.head.questions[0] == 1 && !Has(reply.answer, IsA))
    || (reply.head.questions[0] == 28 && !Has(reply.answer, IsAaaa))
  }

  /** Never stored, whatever the options. */
  ghost predicate Refused(reply: Reply) {
    || reply.head.truncated || |reply.head.questions| != 1
    || reply.head.rcode !in {0, 2, 3}
    || (reply.head.rcode == 3 && !IsNegative(reply))
    || (reply.head.rcode == 0 && !IsNegative(reply) && LacksAddress(reply))
  }

  lemma RefusedNeverStored(o: Options, reply: Reply)
    requires Refused(reply)
    ensures Lifetime(o, reply) == None
  {
    hide MinimumTTL, NegativeTTL;
    NegativeIs(reply.ns);
    AddressesAre(reply.answer);
  }

  lemma NegativeIs(ns: seq<Record>)
    ensures NegativeTTL(ns).Some? <==> Has(ns, IsSoa) && !Has(ns, IsNs)
    ensures NegativeTTL(ns).Some? ==>
              exists least: uint32 :: NegativeTTL(ns).value == least * SECOND && IsLeastSoa(ns, least)
  {
    NegativeExactly(ns);
    assert Has(ns, IsSoa) <==> exists r :: r in ns && r.body.SOA? by {
      if r :| r in ns && r.body.SOA? { assert IsSoa(r); }
    }
    assert Has(ns, IsNs) <==> exists r :: r in ns && r.body.NS? by {
      if r :| r in ns && r.body.NS? { assert IsNs(r); }
    }
  }

  lemma AddressesAre(answer: seq<Record>)
    ensures HasAddress(answer, 1) <==> Has(answer, IsA)
    ensures HasAddress(answer, 28) <==> Has(answer, IsAaaa)
  {
    if Has(answer, IsA) {
      var r :| r in answer && IsA(r);
      var i :| 0 <= i < |answer| && answer[i] == r;
    }
    if Has(answer, IsAaaa) {
      var r :| r in answer && IsAaaa(r);
      var i :| 0 <= i < |answer| && answer[i] == r;
    }
    if i :| 0 <= i < |answer| && answer[i].body.A? { assert IsA(answer[i]); }
    if i :| 0 <= i < |answer| && answer[i].body.AAAA? { assert IsAaaa(answer[i]); }
  }

  lemma SameLeastSoa(ns: seq<Record>, x: uint32, y: uint32)
    requires IsLeastSoa(ns, x) && IsLeastSoa(ns, y)
    ensures x == y
  {
  }

  /** A negative reply is stored exactly if its least SOA allowance is positive, and then for that many seconds. */
  lemma NegativeStored(reply: Reply, least: uint32, defaultTTL: int)
    requires !Refused(reply) && IsNegative(reply) && IsLeastSoa(reply.ns, least)
    ensures Lifetime(Options(defaultTTL, 0, 0), reply) == if least > 0 then Some(least * 1_000_000_000) else None
  {
    hide MinimumTTL, NegativeTTL, HasAddress;
    NegativeIs(reply.ns);
    var l: uint32 :| NegativeTTL(reply.ns).value == l * SECOND && IsLeastSoa(reply.ns, l);
    SameLeastSoa(reply.ns, l, least);
  }

  /** The least TTL of all three sections, OPT records aside, as far as it can be used. */
  ghost predicate UsableTTL(reply: Reply, least: uint32) {
    0 < least < 0xFFFF_FFFF && IsLeastTTL(reply.answer + reply.ns + reply.extra, least)
  }

  lemma MinimumIs(reply: Reply)
    ensures MinimumTTL(reply) == 0 || exists least: uint32 ::
        UsableTTL(reply, least) && MinimumTTL(reply) == least * SECOND
    ensures forall least: uint32 :: UsableTTL(reply, least) ==> least > 0 && MinimumTTL(reply) == least * SECOND
  {
    hide LeastTTL;
    LeastTTLMeaning(AllRecords(reply));
    if MinimumTTL(reply) != 0 { assert UsableTTL(reply, LeastTTL(AllRecords(reply)).value); }
  }

  /** Any other NOERROR reply lives its least TTL, and is not stored when that cannot be used. */
  lemma PositiveStored(reply: Reply, defaultTTL: int)
    requires !Refused(reply) && !IsNegative(reply) && reply.head.rcode == 0
    ensures forall least: uint32 :: UsableTTL(reply, least) ==>
              Lifetime(Options(defaultTTL, 0, 0), reply) == Some(least * 1_000_000_000)
    ensures (forall least: uint32 :: !UsableTTL(reply, least)) ==> Lifetime(Options(defaultTTL, 0, 0), reply) == None
  {
    hide MinimumTTL, NegativeTTL, HasAddress, UsableTTL;
    MinimumIs(reply);
    NegativeIs(reply.ns);
    AddressesAre(reply.answer);
  }

  /** A server failure lives its least TTL, or else the default, but no longer than 30 seconds. */
  lemma FailureStored(reply: Reply, defaultTTL: int)
    requires !Refused(reply) && reply.head.rcode == 2
    ensures forall least: uint32 :: UsableTTL(reply, least) ==>
              Lifetime(Options(defaultTTL, 0, 0), reply) ==
                  Some(if least < 30 then least * 1_000_000_000 else 30_000_000_000)
    ensures (forall least: uint32 :: !UsableTTL(reply, least)) ==>
              Lifetime(Options(defaultTTL, 0, 0), reply) ==
              if defaultTTL <= 0 then None else Some(if defaultTTL < 30_000_000_000 then defaultTTL else 30_000_000_000)
  {
    hide MinimumTTL, UsableTTL;
    MinimumIs(reply);
  }

  /** The bounds store the same replies, each for its lifetime without them brought within them. */
  lemma BoundsClamp(o: Options, reply: Reply)
    requires ValidOptions(o)
    ensures var plain := Lifetime(Options(o.defaultTTL, 0, 0), reply);
      && (Lifetime(o, reply).None? <==> plain.None?)
      && (plain.Some? ==>
            var bounded :=
              if plain.value < o.minTTL then o.minTTL
              else if o.maxTTL > 0 && plain.value > o.maxTTL then o.maxTTL
              else plain.value;
            Lifetime(o, reply).value ==
            if reply.head.rcode == 2 && bounded > 30_000_000_000 then 30_000_000_000 else bounded)
  {
    hide MinimumTTL, NegativeTTL, HasAddress;
  }

  // ---- The documented rules that the code does not follow

  function Text(ttl: uint32): Record {
    Record("example.org.", 16, ttl, Other)
  }

  function TextReply(answer: seq<Record>, extra: seq<Record>): Reply {
    Reply(Head(RCODE_SUCCESS, false, true, [16]), answer, [], extra)
  }

  lemma OneText(ttl: uint32)
    ensures MinimumTTL(TextReply([Text(ttl)], [])) == if ttl == MAX_UINT32 then 0 else ttl * SECOND
  {
    var records := AllRecords(TextReply([Text(ttl)], []));
    assert records == [Text(ttl)] && records[..0] == [];
    assert LeastTTL(records) == Some(ttl);
  }

  /** The additional section takes part in the minimum. */
  lemma ExtraCounts()
    ensures MinimumTTL(TextReply([Text(100)], [Text(50)])) == 50 * SECOND
  {
    var records := AllRecords(TextReply([Text(100)], [Text(50)]));
    assert records == [Text(100), Text(50)];
    assert records[..1] == [Text(100)] && [Text(100)][..0] == [];
  }

  /** A TTL of zero is not cached, whatever the default; a short one is not raised; and hits do age. */
  lemma NoDefaultNoFloorAgeing(defaultTTL: int)
    ensures var o := Options(defaultTTL, 0, 0);
      && Lifetime(o, TextReply([Text(0)], [])) == None
      && Lifetime(o, TextReply([Text(5)], [])) == Some(5 * SECOND)
      && DurationToTTL(5 * SECOND - SECOND) == 4
  {
    hide MinimumTTL;
    OneText(0);
    OneText(5);
  }
}
