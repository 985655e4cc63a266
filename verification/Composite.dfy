/** Composite registries: a boolean operator over child registries, which may be composites themselves. */
module Composites {
  import opened Options
  import opened Sets
  import opened VerifierIds

  datatype Operator = And | Or | Majority | Quorum | Unknown

  /** What evaluating a registry returns: possibly an error, possibly no response. */
  datatype Result = Result(failed: bool, reply: Option<Reply>)

  /** A registry with what it returns for the request, or a composite with its children and the order in which their
      results arrive. */
  datatype Tree = Registry(result: Result)
                | Composite(operator: Operator, threshold: int, children: seq<Tree>, arrivals: seq<nat>)

  predicate Positive(r: Result) {
    !r.failed && r.reply.Some? && r.reply.value.decision
  }

  /** A result that can change when a registry recovers. */
  predicate Uncertain(r: Result) {
    r.failed || r.reply.None? || r.reply.value.incomplete
  }

  /** MAJORITY compares with half of the total, rounded down. */
  predicate Decide(op: Operator, threshold: int, agreed: nat, total: nat) {
    match op
    case And => agreed == total
    case Or => agreed > 0
    case Majority => agreed > total / 2
    case Quorum => if threshold > total then false else agreed >= threshold
    case Unknown => false
  }

  // ---------------------------------------------------------------- the code

  ghost function Positives(rs: seq<Result>): seq<Reply> {
    if rs == [] then []
    else Positives(rs[..|rs| - 1]) + if Positive(rs[|rs| - 1]) then [rs[|rs| - 1].reply.value] else []
  }

  ghost predicate AnyUncertain(rs: seq<Result>) {
    exists r :: r in rs && Uncertain(r)
  }

  ghost function Applied(op: Operator, threshold: int, rs: seq<Result>): Reply {
    var decision := Decide(op, threshold, |Positives(rs)|, |rs|);
    Reply(decision, if decision then Sort(AddReplies([], Positives(rs))) else [], AnyUncertain(rs))
  }

  method ApplyLogic(op: Operator, threshold: int, rs: seq<Result>) returns (reply: Reply)
    ensures reply == Applied(op, threshold, rs)
  {
    hide AddReplies, Sort, Uncertain;
    var agreed := 0;
    var positive: seq<Reply> := [];
    var incomplete := false;
    for i := 0 to |rs|
      invariant positive == Positives(rs[..i]) && agreed == |positive|
      invariant incomplete == AnyUncertain(rs[..i])
    {
      assert rs[..i + 1][..i] == rs[..i] && rs[..i + 1] == rs[..i] + [rs[i]];
      if Uncertain(rs[i]) { incomplete := true; }
      if Positive(rs[i]) {
        agreed := agreed + 1;
        positive := positive + [rs[i].reply.value];
      }
    }
    assert rs[..|rs|] == rs;
    var resp := new Aggregate(Decide(op, threshold, agreed, |rs|));
    resp.MergeVerifierIds(positive);
    return Reply(resp.decision, resp.ids, incomplete);
  }

  /** Every child's result arrives exactly once, at every level. */
  ghost predicate WellFormed(t: Tree) {
    t.Registry? ||
    (&& |t.arrivals| == |t.children|
     && (forall k :: 0 <= k < |t.arrivals| ==> t.arrivals[k] < |t.children|)
     && NoDuplicates(t.arrivals)
     && (forall i :: 0 <= i < |t.children| ==> WellFormed(t.children[i])))
  }

  const NO_CHILDREN := Result(false, Some(Reply(false, [], false)))

  ghost function Outcome(t: Tree): Result
    requires WellFormed(t)
    decreases t, 1
  {
    if t.Registry? then t.result
    else if t.children == [] then NO_CHILDREN
    else Result(false, Some(Applied(t.operator, t.threshold, Arrived(t, |t.arrivals|))))
  }

  /** The first n results to arrive. */
  ghost function Arrived(t: Tree, n: nat): (rs: seq<Result>)
    requires WellFormed(t) && t.Composite? && n <= |t.arrivals|
    ensures |rs| == n
    decreases t, 0, n
  {
    if n == 0 then [] else Arrived(t, n - 1) + [Outcome(t.children[t.arrivals[n - 1]])]
  }

  method Evaluate(t: Tree) returns (r: Result)
    requires WellFormed(t)
    ensures r == Outcome(t)
    decreases t
  {
    hide Applied;
    if t.Registry? { return t.result; }
    if |t.children| == 0 { return Result(false, Some(Reply(false, [], false))); }
    var results: seq<Result> := [];
    for k := 0 to |t.arrivals|
      invariant results == Arrived(t, k)
    {
      var one := Evaluate(t.children[t.arrivals[k]]);
      results := results + [one];
    }
    var reply := ApplyLogic(t.operator, t.threshold, results);
    return Result(false, Some(reply));
  }

  // ---------------------------------------------------------------- the denotation

  /** The boolean that a tree stands for; the order of arrival has no part in it. */
  ghost predicate Denotes(t: Tree) {
    if t.Registry? then Positive(t.result)
    else t.children != []
         && Decide(t.operator, t.threshold, |set i: nat | i < |t.children| && Denotes(t.children[i])|, |t.children|)
  }

  ghost function Agreeing(cs: seq<Tree>): set<nat> {
    set i: nat | i < |cs| && Denotes(cs[i])
  }

  lemma DenotesByCount(t: Tree)
    requires t.Composite? && t.children != []
    ensures Denotes(t) == Decide(t.operator, t.threshold, |Agreeing(t.children)|, |t.children|)
  {
    hide Decide;
    assert Agreeing(t.children) == set i: nat | i < |t.children| && Denotes(t.children[i]);
  }

  /** The verifier identifiers of the registries whose agreement a positive tree rests on. */
  ghost function AgreedKeys(t: Tree): set<Key> {
    if !Denotes(t) then {}
    else if t.Registry? then Keys(t.result.reply.value.ids)
    else set i: nat, k | i < |t.children| && k in AgreedKeys(t.children[i]) :: k
  }

  ghost predicate Doubtful(t: Tree) {
    if t.Registry? then Uncertain(t.result) else exists i :: 0 <= i < |t.children| && Doubtful(t.children[i])
  }

  // ---------------------------------------------------------------- the code computes the denotation

  /** What is known of a result that stands for a tree. */
  ghost predicate Represents(t: Tree, r: Result) {
    && Positive(r) == Denotes(t)
    && Uncertain(r) == Doubtful(t)
    && (Denotes(t) ==> Keys(r.reply.value.ids) == AgreedKeys(t))
    && (t.Composite? ==> !r.failed && r.reply.Some? && StrictlyIncreasing(r.reply.value.ids)
                         && (!Denotes(t) ==> r.reply.value.ids == []))
  }

  ghost predicate Represented(t: Tree, n: nat)
    requires WellFormed(t) && t.Composite? && n <= |t.arrivals|
  {
    forall k :: 0 <= k < n ==> Represents(t.children[t.arrivals[k]], Arrived(t, n)[k])
  }

  lemma {:induction false} OutcomeRepresents(t: Tree)
    requires WellFormed(t)
    ensures Represents(t, Outcome(t))
    decreases t, 1
  {
    if t.Composite? {
      if t.children == [] {
      } else {
        ArrivedRepresents(t, |t.arrivals|);
        AppliedRepresents(t);
      }
    }
  }

  lemma {:induction false} ArrivedRepresents(t: Tree, n: nat)
    requires WellFormed(t) && t.Composite? && n <= |t.arrivals|
    ensures Represented(t, n)
    decreases t, 0, n
  {
    hide Represents;
    if n > 0 {
      ArrivedRepresents(t, n - 1);
      OutcomeRepresents(t.children[t.arrivals[n - 1]]);
    }
  }

  /** The agreeing children among the first n to arrive. */
  ghost function Seen(t: Tree, n: nat): set<nat>
    requires t.Composite? && n <= |t.arrivals|
  {
    set i | i in t.arrivals[..n] && i in Agreeing(t.children)
  }

  /** One more arrival. */
  lemma SeenNext(t: Tree, n: nat)
    requires t.Composite? && n < |t.arrivals| && NoDuplicates(t.arrivals)
    ensures |Seen(t, n + 1)| == |Seen(t, n)| + if t.arrivals[n] in Agreeing(t.children) then 1 else 0
  {
    hide Agreeing;
    var i := t.arrivals[n];
    assert t.arrivals[..n + 1] == t.arrivals[..n] + [i];
    assert i !in t.arrivals[..n];
    assert Seen(t, n + 1) == Seen(t, n) + if i in Agreeing(t.children) then {i} else {};
  }

  lemma PositivesNext(rs: seq<Result>, r: Result)
    ensures |Positives(rs + [r])| == |Positives(rs)| + if Positive(r) then 1 else 0
  {
    hide Positive;
    assert (rs + [r])[..|rs|] == rs;
  }

  lemma RepresentedPrefix(t: Tree, n: nat)
    requires WellFormed(t) && t.Composite? && n < |t.arrivals| && Represented(t, n + 1)
    ensures Represented(t, n) && Represents(t.children[t.arrivals[n]], Outcome(t.children[t.arrivals[n]]))
  {
    hide Represents, Outcome;
    var rs := Arrived(t, n + 1);
    assert Represents(t.children[t.arrivals[n]], rs[n]);
    forall k | 0 <= k < n ensures Represents(t.children[t.arrivals[k]], Arrived(t, n)[k]) {
      assert rs[k] == Arrived(t, n)[k];
    }
  }

  lemma {:induction false} CountsArrivals(t: Tree, n: nat)
    requires WellFormed(t) && t.Composite? && n <= |t.arrivals| && Represented(t, n)
    ensures |Positives(Arrived(t, n))| == |Seen(t, n)|
  {
    hide Represented, Outcome, Uncertain, Doubtful, AgreedKeys, Denotes, Positive, Positives, StrictlyIncreasing;
    if n == 0 {
      NothingCounted(t);
    } else {
      var child := t.children[t.arrivals[n - 1]];
      RepresentedPrefix(t, n - 1);
      CountsArrivals(t, n - 1);
      PositivesNext(Arrived(t, n - 1), Outcome(child));
      SeenNext(t, n - 1);
      hide Seen;
      assert Positive(Outcome(child)) == Denotes(child);
    }
  }

  lemma NothingCounted(t: Tree)
    requires t.Composite?
    ensures |Positives([])| == |Seen(t, 0)| == 0
  {
  }

  /** Every child arrives. */
  lemma AllArrive(t: Tree, i: nat)
    requires WellFormed(t) && t.Composite? && i < |t.children|
    ensures i in t.arrivals
  {
    DistinctBelowIsAll(t.arrivals, i);
  }

  lemma AllSeen(t: Tree)
    requires WellFormed(t) && t.Composite?
    ensures Seen(t, |t.arrivals|) == Agreeing(t.children)
  {
    hide Denotes;
    assert t.arrivals[..|t.arrivals|] == t.arrivals;
    forall i | i in Agreeing(t.children) ensures i in t.arrivals { AllArrive(t, i); }
  }

  lemma {:induction false} PositivesMeaning(rs: seq<Result>, p: Reply)
    ensures p in Positives(rs) <==> exists r :: r in rs && Positive(r) && r.reply.value == p
  {
    if rs != [] {
      var n := |rs| - 1;
      PositivesMeaning(rs[..n], p);
      assert rs == rs[..n] + [rs[n]];
    }
  }

  /** The keys that a merge of the arrived results takes are those of the agreeing children. */
  lemma ArrivedKeys(t: Tree)
    requires WellFormed(t) && t.Composite? && Represented(t, |t.arrivals|) && Denotes(t)
    ensures PositiveKeys(Positives(Arrived(t, |t.arrivals|))) == AgreedKeys(t)
  {
    hide Outcome, Arrived, Uncertain, Doubtful, Keys, KeyOf, Positives, Denotes;
    var rs := Arrived(t, |t.arrivals|);
    forall k ensures k in PositiveKeys(Positives(rs)) <==> k in AgreedKeys(t) {
      if k in PositiveKeys(Positives(rs)) { MergedKeyIsAgreed(t, k); }
      if k in AgreedKeys(t) { AgreedKeyIsMerged(t, k); }
    }
  }

  lemma MergedKeyIsAgreed(t: Tree, key: Key)
    requires WellFormed(t) && t.Composite? && Represented(t, |t.arrivals|) && Denotes(t)
    requires key in PositiveKeys(Positives(Arrived(t, |t.arrivals|)))
    ensures key in AgreedKeys(t)
  {
    var rs := Arrived(t, |t.arrivals|);
    hide Outcome, Arrived, Uncertain, Doubtful, KeyOf, Positives, Denotes;
    var p, v :| p in Positives(rs) && p.decision && v in p.ids && KeyOf(v) == key;
    PositivesMeaning(rs, p);
    var r :| r in rs && Positive(r) && r.reply.value == p;
    var k :| 0 <= k < |rs| && rs[k] == r;
    assert Represents(t.children[t.arrivals[k]], rs[k]);
    assert key in Keys(p.ids);
    assert key in AgreedKeys(t.children[t.arrivals[k]]);
  }

  lemma AgreedKeyIsMerged(t: Tree, key: Key)
    requires WellFormed(t) && t.Composite? && Represented(t, |t.arrivals|) && Denotes(t)
    requires key in AgreedKeys(t)
    ensures key in PositiveKeys(Positives(Arrived(t, |t.arrivals|)))
  {
    var rs := Arrived(t, |t.arrivals|);
    var i: nat :| i < |t.children| && key in AgreedKeys(t.children[i]);
    AllArrive(t, i);
    hide Outcome, Arrived, Uncertain, Doubtful, KeyOf, Positives, Denotes;
    var k :| 0 <= k < |t.arrivals| && t.arrivals[k] == i;
    assert Represents(t.children[t.arrivals[k]], rs[k]);
    assert Denotes(t.children[i]);
    var p := rs[k].reply.value;
    PositivesMeaning(rs, p);
    assert rs[k] in rs && key in Keys(p.ids);
  }

  lemma ArrivedDoubts(t: Tree)
    requires WellFormed(t) && t.Composite? && Represented(t, |t.arrivals|)
    ensures AnyUncertain(Arrived(t, |t.arrivals|)) == Doubtful(t)
  {
    var rs := Arrived(t, |t.arrivals|);
    if AnyUncertain(rs) {
      var r :| r in rs && Uncertain(r);
      var k :| 0 <= k < |rs| && rs[k] == r;
      assert Represents(t.children[t.arrivals[k]], rs[k]);
    }
    if Doubtful(t) {
      var i: nat :| i < |t.children| && Doubtful(t.children[i]);
      AllArrive(t, i);
      var k :| 0 <= k < |t.arrivals| && t.arrivals[k] == i;
      assert Represents(t.children[t.arrivals[k]], rs[k]);
      assert rs[k] in rs;
    }
  }

  lemma AppliedRepresents(t: Tree)
    requires WellFormed(t) && t.Composite? && t.children != [] && Represented(t, |t.arrivals|)
    ensures Represents(t, Outcome(t))
  {
    hide Represented, Doubtful, Denotes, AgreedKeys, AnyUncertain, Decide, AddReplies, Sort, Positives, StrictlyIncreasing, Keys;
    var rs := Arrived(t, |t.arrivals|);
    AppliedDecides(t);
    ArrivedDoubts(t);
    assert Outcome(t) == Result(false, Some(Applied(t.operator, t.threshold, rs)));
    hide Arrived, WellFormed;
    if Denotes(t) {
      MergeMeaning(Positives(rs));
      ArrivedKeys(t);
    } else {
      NothingIncreases();
    }
  }

  lemma AppliedDecides(t: Tree)
    requires WellFormed(t) && t.Composite? && t.children != [] && Represented(t, |t.arrivals|)
    ensures Decide(t.operator, t.threshold, |Positives(Arrived(t, |t.arrivals|))|, |t.arrivals|) == Denotes(t)
  {
    CountsArrivals(t, |t.arrivals|);
    AllSeen(t);
    DenotesByCount(t);
  }

  lemma NothingIncreases()
    ensures StrictlyIncreasing([])
  {
  }

  // ---------------------------------------------------------------- what the denotation is

  /** The operators as conditions on the children. */
  lemma OperatorsMean(t: Tree)
    requires t.Composite?
    ensures t.children == [] ==> !Denotes(t)
    ensures t.children != [] ==>
              var cs, n := t.children, |t.children|;
              match t.operator
              case And => Denotes(t) <==> forall i :: 0 <= i < n ==> Denotes(cs[i])
              case Or => Denotes(t) <==> exists i :: 0 <= i < n && Denotes(cs[i])
              case Majority => Denotes(t) <==> 2 * |Agreeing(cs)| > n
              case Quorum => Denotes(t) <==> t.threshold <= n && |Agreeing(cs)| >= t.threshold
              case Unknown => !Denotes(t)
  {
    if t.children != [] {
      DenotesByCount(t);
      AgreeingIsAll(t.children);
      AgreeingIsNone(t.children);
    }
  }

  lemma AgreeingIsAll(cs: seq<Tree>)
    ensures |Agreeing(cs)| == |cs| <==> forall i :: 0 <= i < |cs| ==> Denotes(cs[i])
  {
    hide Denotes;
    if |Agreeing(cs)| == |cs| {
      SubsetOfSameSize(Agreeing(cs), Below(|cs|));
      forall i | 0 <= i < |cs| ensures Denotes(cs[i]) {
        assert i in Below(|cs|);
      }
    }
    if forall i :: 0 <= i < |cs| ==> Denotes(cs[i]) {
      assert Agreeing(cs) == Below(|cs|);
    }
  }

  lemma AgreeingIsNone(cs: seq<Tree>)
    ensures |Agreeing(cs)| > 0 <==> exists i :: 0 <= i < |cs| && Denotes(cs[i])
  {
    hide Denotes;
    if i :| 0 <= i < |cs| && Denotes(cs[i]) {
      assert i in Agreeing(cs);
    } else {
      assert Agreeing(cs) == {};
    }
  }

  /** A composite is well formed with any order of arrival that names each child once, for example their own. */
  lemma ArrivingInTurn(op: Operator, threshold: int, children: seq<Tree>)
    requires forall i :: 0 <= i < |children| ==> WellFormed(children[i])
    ensures WellFormed(Composite(op, threshold, children, seq(|children|, (i: nat) => i)))
  {
  }

  /** What a registry stands for: it agrees when it answered without an error and allows; it leaves a doubt when it failed, gave
      no response, or marked the response as incomplete; the identifiers are those of its response. */
  lemma RegistryMeans(t: Tree)
    requires t.Registry?
    ensures Denotes(t) <==> !t.result.failed && t.result.reply.Some? && t.result.reply.value.decision
    ensures Doubtful(t) <==> t.result.failed || t.result.reply.None? || t.result.reply.value.incomplete
    ensures Denotes(t) ==> forall v :: v in t.result.reply.value.ids ==> (v.idType, v.id) in AgreedKeys(t)
    ensures forall k :: k in AgreedKeys(t) ==>
              Denotes(t) && exists v :: v in t.result.reply.value.ids && k == (v.idType, v.id)
  {
  }

  /** What a composite answers: never an error; its decision and doubt are what the tree stands for, a doubt being that of any
      child; it names the identifiers of the children that agree when it agrees itself, and none otherwise. */
  lemma CompositeAnswers(t: Tree)
    requires WellFormed(t) && t.Composite?
    ensures var r := Outcome(t);
            && !r.failed && r.reply.Some?
            && (r.reply.value.decision <==> Denotes(t))
            && (r.reply.value.incomplete <==> exists i :: 0 <= i < |t.children| && Doubtful(t.children[i]))
            && (!Denotes(t) ==> r.reply.value.ids == [])
            && (forall v :: v in r.reply.value.ids ==>
                  exists i :: 0 <= i < |t.children| && (v.idType, v.id) in AgreedKeys(t.children[i]))
            && (Denotes(t) ==> forall i, k :: 0 <= i < |t.children| && k in AgreedKeys(t.children[i]) ==>
                  exists v :: v in r.reply.value.ids && k == (v.idType, v.id))
  {
    OutcomeRepresents(t);
    hide Outcome, Denotes;
    var r := Outcome(t);
    if Denotes(t) {
      forall v | v in r.reply.value.ids ensures (v.idType, v.id) in AgreedKeys(t) {
        assert KeyOf(v) in Keys(r.reply.value.ids);
      }
      forall i, k | 0 <= i < |t.children| && k in AgreedKeys(t.children[i])
        ensures exists v :: v in r.reply.value.ids && k == (v.idType, v.id)
      {
        assert k in Keys(r.reply.value.ids);
      }
    }
  }

  /** The same tree, where every registry that agreed still does. */
  ghost predicate AtLeast(t: Tree, u: Tree) {
    if t.Registry? then u.Registry? && (Positive(t.result) ==> Positive(u.result))
    else
      && u.Composite? && u.operator == t.operator && u.threshold == t.threshold && |u.children| == |t.children|
      && forall i :: 0 <= i < |t.children| ==> AtLeast(t.children[i], u.children[i])
  }

  /** One more agreement, anywhere in the tree, never turns an allow into a denial. */
  lemma {:induction false} Monotone(t: Tree, u: Tree)
    requires AtLeast(t, u) && Denotes(t)
    ensures Denotes(u)
  {
    if t.Composite? {
      hide Positive;
      forall i | 0 <= i < |t.children| && Denotes(t.children[i]) ensures Denotes(u.children[i]) {
        Monotone(t.children[i], u.children[i]);
      }
      DenotesByCount(t);
      DenotesByCount(u);
      MoreAgree(t.children, u.children);
    }
  }

  lemma MoreAgree(cs: seq<Tree>, ds: seq<Tree>)
    requires |cs| == |ds| && forall i :: 0 <= i < |cs| && Denotes(cs[i]) ==> Denotes(ds[i])
    ensures |Agreeing(cs)| <= |Agreeing(ds)| <= |ds|
  {
    hide Denotes;
    assert Agreeing(cs) <= Agreeing(ds) <= Below(|ds|);
    SubsetIsSmaller(Agreeing(cs), Agreeing(ds));
    SubsetIsSmaller(Agreeing(ds), Below(|ds|));
  }

  // ---------------------------------------------------------------- arrival order

  /** The same tree, whose results may arrive in another order at every level. */
  ghost predicate SameButOrder(t: Tree, u: Tree) {
    if t.Registry? then u == t
    else
      && u.Composite? && u.operator == t.operator && u.threshold == t.threshold && |u.children| == |t.children|
      && forall i :: 0 <= i < |t.children| ==> SameButOrder(t.children[i], u.children[i])
  }

  lemma {:induction false} OrderIsNoPart(t: Tree, u: Tree)
    requires SameButOrder(t, u)
    ensures Denotes(t) == Denotes(u) && AgreedKeys(t) == AgreedKeys(u) && Doubtful(t) == Doubtful(u)
  {
    if t.Composite? {
      forall i | 0 <= i < |t.children|
        ensures Denotes(t.children[i]) == Denotes(u.children[i]) && AgreedKeys(t.children[i]) == AgreedKeys(u.children[i])
        ensures Doubtful(t.children[i]) == Doubtful(u.children[i])
      {
        OrderIsNoPart(t.children[i], u.children[i]);
      }
      hide SameButOrder;
      if t.children != [] {
        DenotesByCount(t);
        DenotesByCount(u);
        assert Agreeing(t.children) == Agreeing(u.children);
      }
    }
  }

  /** However the results arrive, at every level: the same decision, the same (type, id) pairs in the same order, and the
      same verdict on whether the response is complete. */
  lemma ArrivalsDoNotMatter(t: Tree, u: Tree)
    requires WellFormed(t) && WellFormed(u) && SameButOrder(t, u) && t.Composite?
    ensures Positive(Outcome(t)) == Positive(Outcome(u)) && Uncertain(Outcome(t)) == Uncertain(Outcome(u))
    ensures KeySeq(Outcome(t).reply.value.ids) == KeySeq(Outcome(u).reply.value.ids)
  {
    OutcomeRepresents(t);
    OutcomeRepresents(u);
    OrderIsNoPart(t, u);
    hide Outcome, Denotes, AgreedKeys, Doubtful, Uncertain, Positive, WellFormed, Keys, StrictlyIncreasing;
    if Denotes(t) {
      KeysDetermineOrder(Outcome(t).reply.value.ids, Outcome(u).reply.value.ids);
    }
  }
}
