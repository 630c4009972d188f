/** Following CNAME chains against a resolver that answers each name the same way every time. */
module Cname {
  import opened Lookups
  import opened Dns

  type Resolve = string -> Result<Reply>

  predicate Followed(qtype: uint16) {
    qtype == TYPE_A || qtype == TYPE_AAAA || qtype == TYPE_PTR
  }

  /** The target of the first CNAME record. */
  function FirstTarget(answer: seq<Record>): Option<string> {
    if answer == [] then None
    else if answer[0].body.CNAME? then Some(answer[0].body.target)
    else FirstTarget(answer[1..])
  }

  lemma {:induction false} FirstTargetMeaning(answer: seq<Record>)
    ensures FirstTarget(answer).None? <==> forall i :: 0 <= i < |answer| ==> !answer[i].body.CNAME?
    ensures FirstTarget(answer).Some? ==>
        exists i: nat :: IsFirst(answer, i) && answer[i].body == CNAME(FirstTarget(answer).value)
  {
    if answer != [] {
      if answer[0].body.CNAME? {
        assert IsFirst(answer, 0);
      } else {
        FirstTargetMeaning(answer[1..]);
        if FirstTarget(answer).Some? {
          var i: nat :| IsFirst(answer[1..], i) && answer[1..][i].body == CNAME(FirstTarget(answer).value);
          assert IsFirst(answer, i + 1);
        }
      }
    }
  }

  ghost predicate IsFirst(answer: seq<Record>, i: nat) {
    i < |answer| && answer[i].body.CNAME? && forall j :: 0 <= j < i ==> !answer[j].body.CNAME?
  }

  predicate HasType(answer: seq<Record>, qtype: uint16) {
    exists i :: 0 <= i < |answer| && answer[i].rrtype == qtype
  }

  function Ask(resolve: Resolve, name: string): (answered: Result<Reply>)
    ensures answered.err.None? ==> answered.response.Some?
  {
    Normalize(resolve(name))
  }

  /** The chain goes no further than this name: an error, a type that is not followed, an answer, or no CNAME. */
  predicate Stops(resolve: Resolve, qtype: uint16, name: string) {
    var answered := Ask(resolve, name);
    answered.err.Some? || !Followed(qtype)
    || HasType(answered.response.value.answer, qtype) || FirstTarget(answered.response.value.answer).None?
  }

  function Next(resolve: Resolve, qtype: uint16, name: string): string {
    if Stops(resolve, qtype, name) then name else FirstTarget(Ask(resolve, name).response.value.answer).value
  }

  /** The name after k hops of the chain. */
  function Hop(resolve: Resolve, qtype: uint16, name: string, k: nat): string {
    if k == 0 then name else Next(resolve, qtype, Hop(resolve, qtype, name, k - 1))
  }

  lemma {:induction false} HopFromNext(resolve: Resolve, qtype: uint16, name: string, k: nat)
    ensures Hop(resolve, qtype, name, k + 1) == Hop(resolve, qtype, Next(resolve, qtype, name), k)
  {
    if k > 0 { HopFromNext(resolve, qtype, name, k - 1); }
  }

  /** The chain runs through at least k hops without stopping. */
  ghost predicate Runs(resolve: Resolve, qtype: uint16, name: string, k: nat) {
    forall j: nat | j < k :: !Stops(resolve, qtype, Hop(resolve, qtype, name, j))
  }

  /** What following the chain must return within `left` further hops, and after how many lookups. */
  ghost predicate Exact(resolve: Resolve, qtype: uint16, name: string, left: nat, result: Result<Reply>, lookups: nat) {
    && (forall k: nat | k <= left && Runs(resolve, qtype, name, k)
          && Stops(resolve, qtype, Hop(resolve, qtype, name, k)) ::
          result == Ask(resolve, Hop(resolve, qtype, name, k)) && lookups == k + 1)
    && (Runs(resolve, qtype, name, left + 1) ==>
          var last := Hop(resolve, qtype, name, left);
          result == Result(Ask(resolve, last).response, Some(CnameDepthExceeded(last))) && lookups == left + 1)
  }

  method ScanAnswer(answer: seq<Record>, qtype: uint16) returns (target: Option<string>, hasTargetType: bool)
    ensures target == FirstTarget(answer) && hasTargetType == HasType(answer, qtype)
  {
    target, hasTargetType := None, false;
    for i := 0 to |answer|
      invariant hasTargetType <==> exists j :: 0 <= j < i && answer[j].rrtype == qtype
      invariant FirstTarget(answer) == if target.Some? then target else FirstTarget(answer[i..])
    {
      assert answer[i..][1..] == answer[i + 1..];
      if answer[i].rrtype == qtype { hasTargetType := true; }
      if target.None? && answer[i].body.CNAME? { target := Some(answer[i].body.target); }
    }
  }

  class FollowCnameResolver {
    const maxDepth: nat

    constructor ()
      ensures maxDepth == 16
    {
      maxDepth := 16;
    }

    /** Follows the chain from `name`, which is `depth` hops in; counts the lookups it makes. */
    method LookupAt(resolve: Resolve, name: string, qtype: uint16, depth: nat)
      returns (result: Result<Reply>, lookups: nat)
      requires depth <= maxDepth
      ensures Exact(resolve, qtype, name, maxDepth - depth, result, lookups)
      decreases maxDepth - depth
    {
      hide HasType, FirstTarget;
      result := Normalize(resolve(name));
      lookups := 1;
      assert Hop(resolve, qtype, name, 0) == name;
      if result.err.Some? { StopsHere(resolve, qtype, name, maxDepth - depth); return; }
      if qtype == TYPE_NS || !Followed(qtype) { StopsHere(resolve, qtype, name, maxDepth - depth); return; }
      var target, hasTargetType := ScanAnswer(result.response.value.answer, qtype);
      if target.None? || hasTargetType { StopsHere(resolve, qtype, name, maxDepth - depth); return; }
      if depth >= maxDepth { return Result(result.response, Some(CnameDepthExceeded(name))), 1; }
      var rest: nat;
      result, rest := LookupAt(resolve, target.value, qtype, depth + 1);
      lookups := rest + 1;
      ExactThroughNext(resolve, qtype, name, maxDepth - depth, result, rest);
    }

    method Lookup(resolve: Resolve, name: string, qtype: uint16) returns (result: Result<Reply>, lookups: nat)
      ensures Exact(resolve, qtype, name, maxDepth, result, lookups)
    {
      result, lookups := LookupAt(resolve, name, qtype, 0);
    }
  }

  lemma StopsHere(resolve: Resolve, qtype: uint16, name: string, left: nat)
    requires Stops(resolve, qtype, name)
    ensures Exact(resolve, qtype, name, left, Ask(resolve, name), 1)
  {
    assert Hop(resolve, qtype, name, 0) == name;
    assert forall k: nat | k > 0 :: !Runs(resolve, qtype, name, k);
  }

  lemma RunsShift(resolve: Resolve, qtype: uint16, name: string, k: nat)
    requires !Stops(resolve, qtype, name)
    ensures Runs(resolve, qtype, name, k + 1) <==> Runs(resolve, qtype, Next(resolve, qtype, name), k)
  {
    hide Stops, Next;
    assert Hop(resolve, qtype, name, 0) == name;
    forall j: nat { HopFromNext(resolve, qtype, name, j); }
    if Runs(resolve, qtype, name, k + 1) {
      forall j: nat | j < k ensures !Stops(resolve, qtype, Hop(resolve, qtype, Next(resolve, qtype, name), j)) {
        assert !Stops(resolve, qtype, Hop(resolve, qtype, name, j + 1));
      }
    }
    if Runs(resolve, qtype, Next(resolve, qtype, name), k) {
      forall j: nat | j < k + 1 ensures !Stops(resolve, qtype, Hop(resolve, qtype, name, j)) {
        if j > 0 { assert !Stops(resolve, qtype, Hop(resolve, qtype, Next(resolve, qtype, name), j - 1)); }
      }
    }
  }

  lemma ExactThroughNext(resolve: Resolve, qtype: uint16, name: string, left: nat, result: Result<Reply>, rest: nat)
    requires !Stops(resolve, qtype, name) && left > 0
    requires Exact(resolve, qtype, Next(resolve, qtype, name), left - 1, result, rest)
    ensures Exact(resolve, qtype, name, left, result, rest + 1)
  {
    hide Stops, Next, Runs;
    assert Hop(resolve, qtype, name, 0) == name;
    forall k: nat | k <= left && Runs(resolve, qtype, name, k) && Stops(resolve, qtype, Hop(resolve, qtype, name, k))
      ensures result == Ask(resolve, Hop(resolve, qtype, name, k)) && rest + 1 == k + 1
    {
      if k > 0 {
        RunsShift(resolve, qtype, name, k - 1);
        HopFromNext(resolve, qtype, name, k - 1);
      }
    }
    RunsShift(resolve, qtype, name, left);
    HopFromNext(resolve, qtype, name, left - 1);
  }

  /** Exactly one of the two cases applies, so the chain determines result and cost. */
  lemma {:induction false} StopsOrRuns(resolve: Resolve, qtype: uint16, name: string, left: nat)
    ensures Runs(resolve, qtype, name, left + 1)
      || exists k: nat :: k <= left && Runs(resolve, qtype, name, k)
            && Stops(resolve, qtype, Hop(resolve, qtype, name, k))
  {
    if left > 0 { StopsOrRuns(resolve, qtype, name, left - 1); }
    if Runs(resolve, qtype, name, left) && !Stops(resolve, qtype, Hop(resolve, qtype, name, left)) {
      assert Runs(resolve, qtype, name, left + 1);
    } else if left == 0 {
      assert Runs(resolve, qtype, name, 0) && Stops(resolve, qtype, Hop(resolve, qtype, name, 0));
    }
  }

  /**
   * A chain that comes back to a name it has passed never stops; so its result is the depth error, whatever the
   * limit.
   */
  lemma CycleExceedsDepth(resolve: Resolve, qtype: uint16, name: string, i: nat, j: nat, left: nat,
      result: Result<Reply>, lookups: nat)
    requires i < j && Runs(resolve, qtype, name, j) && Hop(resolve, qtype, name, i) == Hop(resolve, qtype, name, j)
    requires Exact(resolve, qtype, name, left, result, lookups)
    ensures result.err == Some(CnameDepthExceeded(Hop(resolve, qtype, name, left))) && lookups == left + 1
  {
    hide Stops, Next;
    forall k: nat ensures !Stops(resolve, qtype, Hop(resolve, qtype, name, k)) {
      var m := InCycle(resolve, qtype, name, i, j, k);
    }
    assert Runs(resolve, qtype, name, left + 1);
  }

  lemma {:induction false} InCycle(resolve: Resolve, qtype: uint16, name: string, i: nat, j: nat, k: nat)
    returns (m: nat)
    requires i < j && Hop(resolve, qtype, name, i) == Hop(resolve, qtype, name, j)
    ensures m < j && Hop(resolve, qtype, name, m) == Hop(resolve, qtype, name, k)
  {
    hide Next;
    if k == 0 {
      m := 0;
    } else {
      m := InCycle(resolve, qtype, name, i, j, k - 1);
      m := if m + 1 < j then m + 1 else i;
    }
  }

  // ---- What the exact result comes to, in terms of the replies alone

  /** The reply is an answer to give: it has the type asked for, or no CNAME to follow. */
  ghost predicate Answers(reply: Reply, qtype: uint16) {
    || (exists r :: r in reply.answer && r.rrtype == qtype)
    || (forall r :: r in reply.answer ==> !r.body.CNAME?)
  }

  lemma AnswersStop(reply: Reply, qtype: uint16)
    ensures Answers(reply, qtype) <==> HasType(reply.answer, qtype) || FirstTarget(reply.answer).None?
  {
    FirstTargetMeaning(reply.answer);
    if r :| r in reply.answer && r.rrtype == qtype {
      var i :| 0 <= i < |reply.answer| && reply.answer[i] == r;
    }
    if HasType(reply.answer, qtype) {
      var i :| 0 <= i < |reply.answer| && reply.answer[i].rrtype == qtype;
      assert reply.answer[i] in reply.answer;
    }
    if FirstTarget(reply.answer).Some? {
      var i: nat :| IsFirst(reply.answer, i) && reply.answer[i].body == CNAME(FirstTarget(reply.answer).value);
      assert reply.answer[i] in reply.answer;
    }
  }

  /** An error, an answer, or a type other than A (1), PTR (12) and AAAA (28) is the result after one lookup. */
  lemma AnswersAreFinal(resolve: Resolve, qtype: uint16, name: string, left: nat, result: Result<Reply>, lookups: nat)
    requires Exact(resolve, qtype, name, left, result, lookups)
    requires var answered := Normalize(resolve(name));
      answered.err.Some? || qtype !in {1, 12, 28} || Answers(answered.response.value, qtype)
    ensures result == Normalize(resolve(name)) && lookups == 1
  {
    hide HasType, FirstTarget, Answers;
    var answered := Normalize(resolve(name));
    if answered.err.None? { AnswersStop(answered.response.value, qtype); }
    assert Hop(resolve, qtype, name, 0) == name && Stops(resolve, qtype, name);
    assert Runs(resolve, qtype, name, 0);
  }

  lemma FirstIsTarget(answer: seq<Record>, i: nat)
    requires IsFirst(answer, i)
    ensures FirstTarget(answer) == Some(answer[i].body.target)
  {
    FirstTargetMeaning(answer);
    var k: nat :| IsFirst(answer, k) && answer[k].body == CNAME(FirstTarget(answer).value);
  }

  /**
   * Any other reply to an A, PTR or AAAA question is followed: the result is that for the target of its first CNAME,
   * one lookup later; or, with no depth left, the reply itself with the depth error.
   */
  lemma OthersAreFollowed(resolve: Resolve, qtype: uint16, name: string, left: nat, result: Result<Reply>, lookups: nat,
                          i: nat)
    requires Exact(resolve, qtype, name, left, result, lookups) && qtype in {1, 12, 28}
    requires var answered := Normalize(resolve(name));
      answered.err.None? && !Answers(answered.response.value, qtype) && IsFirst(answered.response.value.answer, i)
    ensures var answered := Normalize(resolve(name));
      var target := answered.response.value.answer[i].body.target;
      if left == 0 then result == Result(answered.response, Some(CnameDepthExceeded(name))) && lookups == 1
      else lookups > 0 && Exact(resolve, qtype, target, left - 1, result, lookups - 1)
  {
    hide HasType, FirstTarget, Answers;
    var answered := Normalize(resolve(name));
    AnswersStop(answered.response.value, qtype);
    FirstIsTarget(answered.response.value.answer, i);
    assert Hop(resolve, qtype, name, 0) == name && !Stops(resolve, qtype, name);
    if left == 0 {
      assert Runs(resolve, qtype, name, 1);
    } else {
      hide Stops, Runs, Hop;
      ExactFromNext(resolve, qtype, name, left, result, lookups);
    }
  }

  lemma ExactFromNext(resolve: Resolve, qtype: uint16, name: string, left: nat, result: Result<Reply>, lookups: nat)
    requires !Stops(resolve, qtype, name) && left > 0 && Exact(resolve, qtype, name, left, result, lookups)
    ensures lookups > 0 && Exact(resolve, qtype, Next(resolve, qtype, name), left - 1, result, lookups - 1)
  {
    hide Stops, Next, Runs;
    var next := Next(resolve, qtype, name);
    forall k: nat | k <= left - 1 && Runs(resolve, qtype, next, k)
        && Stops(resolve, qtype, Hop(resolve, qtype, next, k))
      ensures result == Ask(resolve, Hop(resolve, qtype, next, k)) && lookups - 1 == k + 1
    {
      RunsShift(resolve, qtype, name, k);
      HopFromNext(resolve, qtype, name, k);
    }
    RunsShift(resolve, qtype, name, left);
    HopFromNext(resolve, qtype, name, left - 1);
    StopsOrRuns(resolve, qtype, next, left - 1);
  }
}
