/** What the strategies decide and record, in terms of the registries' answers and the fields of their breakers. */
module StrategyMeaning {
  import opened Options
  import opened CircuitBreakers
  import opened Strategies
  import opened Sequential

  /** The breaker lets the request through: it is not open, or its last failure is older than the timeout. */
  ghost predicate LetThrough(r: Registry) {
    r.breaker.state == Open ==> r.breaker.lastFailure + r.breaker.resetTimeout < r.asked
  }

  ghost predicate SaysYes(r: Registry) {
    LetThrough(r) && r.answer.Says? && r.answer.decision
  }

  /** What the request leaves in the breaker. A registry that was not asked leaves it alone; an error or a recovered panic is a
      failure at the time it came, which opens the breaker if it was half-open or the failures now reach the limit; any
      response, and none at all without an error, is a success. */
  ghost predicate Leaves(r: Registry, after: Breaker) {
    var b := r.breaker;
    && after.maxFailures == b.maxFailures && after.resetTimeout == b.resetTimeout
    && if !LetThrough(r) then after == b
       else if r.answer.Says? || r.answer == Silent then
         after.failures == 0 && after.state == Closed && after.lastFailure == b.lastFailure
       else
         && after.failures == b.failures + 1 && after.lastFailure == r.answered
         && (if b.state == HalfOpen || b.failures + 1 >= b.maxFailures then after.state == Open else after.state == b.state)
  }

  lemma AdmittedMeaning(r: Registry)
    ensures Admitted(r) <==> LetThrough(r)
    ensures Allows(r) <==> SaysYes(r)
  {
  }

  lemma RecordedMeaning(r: Registry, after: Breaker)
    ensures after == Recorded(r) <==> Leaves(r, after)
  {
  }

  /** However the workers and the collector interleave, a run that is over has returned "yes" exactly when some registry that was
      let through says yes, has one message from each, and has left in each breaker what its registry's answer leaves. */
  lemma RunMeaning(mode: Mode, rs: seq<Registry>, actions: seq<Action>)
    requires Run(mode, rs, actions).Some? && forall a :: !Enabled(rs, Run(mode, rs, actions).value, a)
    ensures var s := Run(mode, rs, actions).value;
            && s.collector == Returned(exists i :: 0 <= i < |rs| && SaysYes(rs[i]))
            && |s.sent| == |rs| == |s.breakers|
            && forall i :: 0 <= i < |rs| ==> Leaves(rs[i], s.breakers[i])
  {
    hide Run, Enabled, Recorded, Leaves, Admitted, Allows, SaysYes;
    EveryRunEnds(mode, rs, actions);
    var s := Run(mode, rs, actions).value;
    forall i | 0 <= i < |rs| ensures Allows(rs[i]) <==> SaysYes(rs[i]) { AdmittedMeaning(rs[i]); }
    forall i | 0 <= i < |rs| ensures Leaves(rs[i], s.breakers[i]) { RecordedMeaning(rs[i], s.breakers[i]); }
  }

  /** A run goes on with every action that is enabled. */
  lemma RunGoesOn(mode: Mode, rs: seq<Registry>, actions: seq<Action>, a: Action)
    requires Run(mode, rs, actions).Some? && Enabled(rs, Run(mode, rs, actions).value, a)
    ensures Run(mode, rs, actions + [a]) == Some(Step(mode, rs, Run(mode, rs, actions).value, a))
  {
    hide Enabled, Step;
    assert (actions + [a])[..|actions|] == actions;
  }

  /** And every run can be completed. */
  lemma {:induction false} Completes(mode: Mode, rs: seq<Registry>, actions: seq<Action>) returns (more: seq<Action>)
    requires Run(mode, rs, actions).Some?
    ensures Run(mode, rs, actions + more).Some? && Over(Run(mode, rs, actions + more).value)
    decreases Remaining(rs, Run(mode, rs, actions).value)
  {
    hide Run, Enabled, Step, Remaining, Over;
    var s := Run(mode, rs, actions).value;
    if Over(s) {
      assert actions + [] == actions;
      return [];
    }
    NeverStuck(mode, rs, actions);
    var a :| Enabled(rs, s, a);
    RunGoesOn(mode, rs, actions, a);
    StepsCost(mode, rs, s, a);
    RemainingNat(mode, rs, actions + [a]);
    more := Completes(mode, rs, actions + [a]);
    assert actions + ([a] + more) == actions + [a] + more;
    more := [a] + more;
  }

  lemma RemainingNat(mode: Mode, rs: seq<Registry>, actions: seq<Action>)
    requires Run(mode, rs, actions).Some?
    ensures Remaining(rs, Run(mode, rs, actions).value) >= 0
  {
    RunKeeps(mode, rs, actions);
    SentAtMost(rs, Run(mode, rs, actions).value);
  }

  ghost predicate Heard(s: State) {
    s.collector.Returned? ==> s.closed && s.received == |s.sent|
  }

  lemma HeardStep(rs: seq<Registry>, s: State, a: Action)
    requires Invariant(All, rs, s) && Enabled(rs, s, a) && Heard(s)
    ensures Heard(Step(All, rs, s, a))
  {
    assert s.closed ==> AllDone(s.phases);
    hide Invariant, Verdict, Recorded, Admitted;
  }

  lemma {:induction false} RunHears(rs: seq<Registry>, actions: seq<Action>)
    requires Run(All, rs, actions).Some?
    ensures Heard(Run(All, rs, actions).value)
  {
    hide Invariant, Enabled, Step, Heard;
    if actions == [] {
      assert Heard(Start(rs)) by { StartHears(rs); }
    } else {
      var before := actions[..|actions| - 1];
      RunKeeps(All, rs, before);
      RunHears(rs, before);
      HeardStep(rs, Run(All, rs, before).value, actions[|actions| - 1]);
    }
  }

  lemma StartHears(rs: seq<Registry>)
    ensures Heard(Start(rs))
  {
  }

  /** Asking all registries, the collector returns only when it has heard every one. */
  lemma AllAreHeard(rs: seq<Registry>, actions: seq<Action>)
    requires Run(All, rs, actions).Some? && Run(All, rs, actions).value.collector.Returned?
    ensures var s := Run(All, rs, actions).value; s.closed && s.received == |s.sent| == |rs|
  {
    hide Run, Enabled, BreakerKept, Collected;
    RunKeeps(All, rs, actions);
    RunHears(rs, actions);
    AllSent(Run(All, rs, actions).value.phases);
  }

  /** Looking for the first match, it goes on only while no message it has received says yes. */
  lemma FirstMatchStops(rs: seq<Registry>, actions: seq<Action>, k: nat)
    requires Run(FirstMatch, rs, actions).Some? && Run(FirstMatch, rs, actions).value.collector.Collecting?
    ensures k < Run(FirstMatch, rs, actions).value.received <= |Run(FirstMatch, rs, actions).value.sent| ==>
              !Run(FirstMatch, rs, actions).value.sent[k].allows
  {
    RunKeeps(FirstMatch, rs, actions);
  }

  /** What a worker puts on the channel: whether its registry says yes; an error only when it was not asked or failed. */
  lemma MessageMeaning(rs: seq<Registry>, i: nat)
    requires i < |rs|
    ensures Verdict(rs, i).from == i && (Verdict(rs, i).allows <==> SaysYes(rs[i]))
    ensures Verdict(rs, i).error <==> !LetThrough(rs[i]) || rs[i].answer in {Fails, Panics}
  {
  }

  /** The sequential loop ends at the first registry that is let through and says yes or panics; it answers yes or crashes there,
      and no when it comes to the end. */
  lemma SequentialMeaning(rs: seq<Registry>, stop: nat)
    requires StopsAt(rs, stop)
    ensures forall j :: 0 <= j < stop ==> !SaysYes(rs[j]) && !(LetThrough(rs[j]) && rs[j].answer == Panics)
    ensures stop < |rs| ==> SaysYes(rs[stop]) || (LetThrough(rs[stop]) && rs[stop].answer == Panics)
    ensures SequentialOutcome(rs, stop) == Decided(true) <==> stop < |rs| && SaysYes(rs[stop])
    ensures SequentialOutcome(rs, stop) == Crashed <==> stop < |rs| && LetThrough(rs[stop]) && rs[stop].answer == Panics
    ensures SequentialOutcome(rs, stop) == Decided(false) <==> stop == |rs|
  {
    hide Admitted, LetThrough;
    forall r: Registry ensures Admitted(r) <==> LetThrough(r) { AdmittedMeaning(r); }
  }

  /** A half-open breaker, which no code makes, would let a request through and open at the first failure. */
  lemma HalfOpenMeaning(b: Breaker, now: int)
    requires b.state == HalfOpen
    ensures Admits(b, now) && Failed(b, now).state == Open && Succeeded(b).state == Closed
  {
  }
}
