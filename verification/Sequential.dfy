/** The sequential strategy, and when it agrees with the parallel ones. */
module Sequential {
  import opened CircuitBreakers
  import opened Strategies

  /** The response's decision, or a panic that no one recovers: unlike the workers of the parallel strategies, the loop calls
      the registries on the caller's own stack. */
  datatype Outcome = Decided(decision: bool) | Crashed

  /** The loop ends at this registry. */
  predicate Stops(r: Registry) {
    Admitted(r) && (r.answer.Panics? || r.answer == Says(true))
  }

  /** The first registry that ends the loop, or their number when none does. */
  ghost predicate StopsAt(rs: seq<Registry>, stop: nat) {
    stop <= |rs| && (forall j :: 0 <= j < stop ==> !Stops(rs[j])) && (stop < |rs| ==> Stops(rs[stop]))
  }

  ghost function SequentialOutcome(rs: seq<Registry>, stop: nat): Outcome
    requires StopsAt(rs, stop)
  {
    if stop == |rs| then Decided(false) else if rs[stop].answer.Panics? then Crashed else Decided(true)
  }

  /** Each registry has its own breaker, in the state the registry's description starts from. */
  ghost predicate Guarded(rs: seq<Registry>, cbs: seq<CircuitBreaker>, from: nat)
    reads cbs
  {
    && |cbs| == |rs|
    && forall i :: from <= i < |rs| ==> cbs[i].Value() == rs[i].breaker
  }

  ghost predicate Separate(cbs: seq<CircuitBreaker>) {
    forall i, j :: 0 <= i < j < |cbs| ==> cbs[i] != cbs[j]
  }

  ghost predicate AllRecorded(rs: seq<Registry>, cbs: seq<CircuitBreaker>, n: nat)
    requires n <= |rs| == |cbs|
    reads cbs
  {
    forall i :: 0 <= i < n ==> cbs[i].Value() == Recorded(rs[i])
  }

  /** One turn of the loop. */
  method Ask(r: Registry, cb: CircuitBreaker) returns (crashed: bool, allowed: bool)
    requires cb.Value() == r.breaker
    modifies cb
    ensures crashed == (Stops(r) && r.answer.Panics?) && allowed == (Stops(r) && !r.answer.Panics?)
    ensures cb.Value() == if crashed then r.breaker else Recorded(r)
  {
    hide Admits, Succeeded, Failed;
    crashed, allowed := false, false;
    var admitted := cb.CanAttempt(r.asked);
    if !admitted { return; }
    match r.answer {
      case Panics => crashed := true;
      case Fails => cb.RecordFailure(r.answered);
      case Silent => cb.RecordSuccess();
      case Says(decision) =>
        cb.RecordSuccess();
        allowed := decision;
    }
  }

  /** evaluateSequentialFiltered. It asks the registries up to the first that allows or panics, and no further: the breakers
      before that one are recorded, those after it are untouched, and so is that of a registry that panics. */
  method EvaluateSequential(rs: seq<Registry>, cbs: seq<CircuitBreaker>) returns (r: Outcome, stop: nat)
    requires Guarded(rs, cbs, 0) && Separate(cbs)
    modifies cbs
    ensures StopsAt(rs, stop) && r == SequentialOutcome(rs, stop)
    ensures AllRecorded(rs, cbs, if r == Decided(true) then stop + 1 else stop)
    ensures Guarded(rs, cbs, if r == Decided(true) then stop + 1 else stop)
  {
    hide Stops, Recorded;
    for i := 0 to |rs|
      invariant forall j :: 0 <= j < i ==> !Stops(rs[j])
      invariant AllRecorded(rs, cbs, i) && Guarded(rs, cbs, i)
    {
      var crashed, allowed := Ask(rs[i], cbs[i]);
      if crashed { return Crashed, i; }
      if allowed { return Decided(true), i; }
    }
    return Decided(false), |rs|;
  }

  /** A registry that its breaker admits panics before any registry allows. */
  ghost predicate PanicFirst(rs: seq<Registry>) {
    exists i :: 0 <= i < |rs| && Admitted(rs[i]) && rs[i].answer.Panics? && forall j :: 0 <= j < i ==> !Allows(rs[j])
  }

  /** On the same outcomes the sequential strategy returns the decision of the parallel ones exactly when no admitted
      registry panics before one allows; otherwise it crashes. */
  lemma AgreesUnlessPanicFirst(rs: seq<Registry>, stop: nat)
    requires StopsAt(rs, stop)
    ensures SequentialOutcome(rs, stop) == Decided(SomeAllows(rs)) <==> !PanicFirst(rs)
    ensures SequentialOutcome(rs, stop) == Crashed <==> PanicFirst(rs)
  {
    hide Admitted;
    assert forall j :: 0 <= j < |rs| ==> (Allows(rs[j]) ==> Stops(rs[j]));
    if stop < |rs| && rs[stop].answer.Panics? {
      assert PanicFirst(rs);
    } else if stop < |rs| {
      assert Allows(rs[stop]);
    }
  }
}
