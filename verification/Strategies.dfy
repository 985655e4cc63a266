/** The parallel strategies (first match, all registries): one worker per registry, a buffered channel, a closer and a
    collector, as steps that may interleave in any order; and the sequential strategy. */
module Strategies {
  import opened CircuitBreakers
  import opened Options

  // ---------------------------------------------------------------- what the registries would answer

  /** What a registry's Evaluate does: fails, panics, returns no response, or returns a decision. */
  datatype Answer = Fails | Panics | Silent | Says(decision: bool)

  /** One registry: its breaker when the request arrives, when the breaker is asked, the answer, and when it came. */
  datatype Registry = Registry(breaker: Breaker, asked: int, answer: Answer, answered: int)

  /** What a worker puts on the channel: an error, for a skip, a failure or a recovered panic; or a response. */
  datatype Message = Message(from: nat, error: bool, allows: bool)

  predicate Admitted(r: Registry) {
    Admits(r.breaker, r.asked)
  }

  function Verdict(rs: seq<Registry>, i: nat): Message
    requires i < |rs|
  {
    if !Admitted(rs[i]) || rs[i].answer.Fails? || rs[i].answer.Panics? then Message(i, true, false)
    else Message(i, false, rs[i].answer == Says(true))
  }

  /** The breaker once its registry has answered; a skipped registry leaves it alone. */
  function Recorded(r: Registry): Breaker {
    if !Admitted(r) then r.breaker
    else if r.answer.Fails? || r.answer.Panics? then Failed(r.breaker, r.answered)
    else Succeeded(r.breaker)
  }

  predicate Allows(r: Registry) {
    Admitted(r) && r.answer == Says(true)
  }

  /** Some registry that its breaker does not skip allows. */
  ghost predicate SomeAllows(rs: seq<Registry>) {
    exists i :: 0 <= i < |rs| && Allows(rs[i])
  }

  // ---------------------------------------------------------------- states

  datatype Mode = FirstMatch | All

  /** Ready: not started. Evaluating: admitted. Holding: about to send. Sent: not yet signed off the wait group. */
  datatype Phase = Ready | Evaluating | Holding | Sent | Done

  datatype Collector = Collecting(decision: bool) | Returned(decision: bool)

  /** The channel holds the messages sent and not yet received. */
  datatype State = State(phases: seq<Phase>, breakers: seq<Breaker>, sent: seq<Message>, received: nat, closed: bool,
                         collector: Collector)

  function Start(rs: seq<Registry>): State {
    State(seq(|rs|, _ => Ready), seq(|rs|, i requires 0 <= i < |rs| => rs[i].breaker), [], 0, false, Collecting(false))
  }

  datatype Action = Begin(i: nat) | Answers(i: nat) | Send(i: nat) | SignOff(i: nat) | Close | Receive | Finish

  predicate AllDone(phases: seq<Phase>) {
    forall i :: 0 <= i < |phases| ==> phases[i] == Done
  }

  predicate Shaped(rs: seq<Registry>, s: State) {
    |s.phases| == |s.breakers| == |rs| && s.received <= |s.sent|
  }

  /** A worker can send while the buffer, as large as the number of registries, has room; the closer waits for all workers;
      the collector receives while the channel has messages and finishes when it is closed and drained. */
  predicate Enabled(rs: seq<Registry>, s: State, a: Action)
    requires Shaped(rs, s)
  {
    match a
    case Begin(i) => i < |rs| && s.phases[i] == Ready
    case Answers(i) => i < |rs| && s.phases[i] == Evaluating
    case Send(i) => i < |rs| && s.phases[i] == Holding && |s.sent| - s.received < |rs|
    case SignOff(i) => i < |rs| && s.phases[i] == Sent
    case Close => !s.closed && AllDone(s.phases)
    case Receive => s.collector.Collecting? && s.received < |s.sent|
    case Finish => s.collector.Collecting? && s.closed && s.received == |s.sent|
  }

  /** The collector takes the next message: first match returns at the first allow, all registries notes it. */
  function Take(mode: Mode, c: Collector, m: Message): Collector {
    if m.error || !m.allows then c
    else if mode.FirstMatch? then Returned(true)
    else Collecting(true)
  }

  function Step(mode: Mode, rs: seq<Registry>, s: State, a: Action): (t: State)
    requires Shaped(rs, s) && Enabled(rs, s, a)
    ensures Shaped(rs, t)
  {
    match a
    case Begin(i) => s.(phases := s.phases[i := if Admitted(rs[i]) then Evaluating else Holding])
    case Answers(i) => s.(phases := s.phases[i := Holding], breakers := s.breakers[i := Recorded(rs[i])])
    case Send(i) => s.(phases := s.phases[i := Sent], sent := s.sent + [Verdict(rs, i)])
    case SignOff(i) => s.(phases := s.phases[i := Done])
    case Close => s.(closed := true)
    case Receive => s.(received := s.received + 1, collector := Take(mode, s.collector, s.sent[s.received]))
    case Finish => s.(collector := Returned(s.collector.decision))
  }

  /** The state that a run of actions leads to, if each is enabled in its turn. */
  ghost function Run(mode: Mode, rs: seq<Registry>, actions: seq<Action>): (s: Option<State>)
    ensures s.Some? ==> Shaped(rs, s.value)
  {
    if actions == [] then Some(Start(rs))
    else
      var before := Run(mode, rs, actions[..|actions| - 1]);
      var a := actions[|actions| - 1];
      if before.Some? && Enabled(rs, before.value, a) then Some(Step(mode, rs, before.value, a)) else None
  }

  // ---------------------------------------------------------------- what every step keeps

  predicate HasSent(p: Phase) {
    p == Sent || p == Done
  }

  function CountSent(ps: seq<Phase>): (n: nat)
    ensures n <= |ps|
  {
    if ps == [] then 0 else CountSent(ps[..|ps| - 1]) + if HasSent(ps[|ps| - 1]) then 1 else 0
  }

  lemma {:induction false} CountSentUpdate(ps: seq<Phase>, i: nat, p: Phase)
    requires i < |ps|
    ensures CountSent(ps[i := p])
         == CountSent(ps) + (if HasSent(p) then 1 else 0) - (if HasSent(ps[i]) then 1 else 0)
  {
    var n := |ps| - 1;
    if i < n {
      CountSentUpdate(ps[..n], i, p);
      assert ps[i := p][..n] == ps[..n][i := p];
    } else {
      assert ps[i := p][..n] == ps[..n];
    }
  }

  /** A worker that has not sent leaves room in the count. */
  lemma CountSentRoom(ps: seq<Phase>, i: nat)
    requires i < |ps| && !HasSent(ps[i])
    ensures CountSent(ps) < |ps|
  {
    CountSentUpdate(ps, i, Sent);
  }

  /** A worker's breaker is recorded once the registry has answered. */
  predicate BreakerKept(r: Registry, p: Phase, b: Breaker) {
    match p
    case Ready => b == r.breaker
    case Evaluating => Admitted(r) && b == r.breaker
    case _ => b == Recorded(r)
  }

  predicate IsFrom(s: State, k: nat, i: nat)
    requires k < |s.sent|
  {
    s.sent[k].from == i
  }

  /** Messages are the verdicts of distinct workers, and of every worker that has sent. */
  ghost predicate Delivered(rs: seq<Registry>, s: State)
    requires Shaped(rs, s)
  {
    && (forall k :: 0 <= k < |s.sent| ==>
          s.sent[k].from < |rs| && s.sent[k] == Verdict(rs, s.sent[k].from) && HasSent(s.phases[s.sent[k].from]))
    && (forall j, k :: 0 <= j < k < |s.sent| ==> s.sent[j].from != s.sent[k].from)
    && (forall i :: 0 <= i < |rs| && HasSent(s.phases[i]) ==> exists k :: 0 <= k < |s.sent| && IsFrom(s, k, i))
    && |s.sent| == CountSent(s.phases)
  }

  ghost predicate AllowReceived(s: State, n: nat)
    requires n <= |s.sent|
  {
    exists k :: 0 <= k < n && s.sent[k].allows
  }

  ghost predicate Collected(mode: Mode, rs: seq<Registry>, s: State)
    requires Shaped(rs, s)
  {
    match s.collector
    case Collecting(d) => d == AllowReceived(s, s.received) && (mode.FirstMatch? ==> !d)
    case Returned(d) => d == SomeAllows(rs)
  }

  ghost predicate Invariant(mode: Mode, rs: seq<Registry>, s: State) {
    && Shaped(rs, s)
    && (forall i :: 0 <= i < |rs| ==> BreakerKept(rs[i], s.phases[i], s.breakers[i]))
    && Delivered(rs, s)
    && Collected(mode, rs, s)
    && (s.closed ==> AllDone(s.phases))
  }

  lemma StartInvariant(mode: Mode, rs: seq<Registry>)
    ensures Invariant(mode, rs, Start(rs))
  {
    NoneSent(Start(rs).phases);
  }

  lemma {:induction false} NoneSent(ps: seq<Phase>)
    requires forall i :: 0 <= i < |ps| ==> ps[i] == Ready
    ensures CountSent(ps) == 0
  {
    if ps != [] { NoneSent(ps[..|ps| - 1]); }
  }

  /** Steps of a worker other than sending. */
  lemma WorkerStepKeeps(mode: Mode, rs: seq<Registry>, s: State, i: nat, p: Phase, b: Breaker)
    requires Invariant(mode, rs, s) && i < |rs| && HasSent(p) == HasSent(s.phases[i])
    requires s.phases[i] != Done && BreakerKept(rs[i], p, b)
    ensures Invariant(mode, rs, s.(phases := s.phases[i := p], breakers := s.breakers[i := b]))
  {
    hide BreakerKept, Verdict, SomeAllows, CountSent;
    var t := s.(phases := s.phases[i := p], breakers := s.breakers[i := b]);
    CountSentUpdate(s.phases, i, p);
    forall j | 0 <= j < |rs| && HasSent(t.phases[j]) ensures exists k :: 0 <= k < |t.sent| && IsFrom(t, k, j) {
      var k :| 0 <= k < |s.sent| && IsFrom(s, k, j);
      assert IsFrom(t, k, j);
    }
    assert AllowReceived(t, t.received) == AllowReceived(s, s.received);
  }

  lemma SendKeeps(mode: Mode, rs: seq<Registry>, s: State, i: nat)
    requires Invariant(mode, rs, s) && i < |rs| && s.phases[i] == Holding
    ensures Invariant(mode, rs, s.(phases := s.phases[i := Sent], sent := s.sent + [Verdict(rs, i)]))
  {
    hide Verdict, SomeAllows, Admitted, Recorded, CountSent;
    var t := s.(phases := s.phases[i := Sent], sent := s.sent + [Verdict(rs, i)]);
    CountSentUpdate(s.phases, i, Sent);
    assert Verdict(rs, i).from == i by { VerdictFrom(rs, i); }
    forall j | 0 <= j < |rs| && HasSent(t.phases[j]) ensures exists k :: 0 <= k < |t.sent| && IsFrom(t, k, j) {
      if j == i {
        assert IsFrom(t, |s.sent|, i);
      } else {
        var k :| 0 <= k < |s.sent| && IsFrom(s, k, j);
        assert IsFrom(t, k, j);
      }
    }
    assert forall k :: 0 <= k < |s.sent| ==> t.sent[k] == s.sent[k];
    assert AllowReceived(t, t.received) == AllowReceived(s, s.received);
  }

  lemma VerdictFrom(rs: seq<Registry>, i: nat)
    requires i < |rs|
    ensures Verdict(rs, i).from == i
  {
  }

  /** What the collector has seen decides once everything has been seen, and an allow it has seen is a registry's. */
  lemma AllowReceivedIsSomeAllows(rs: seq<Registry>, s: State, n: nat)
    requires Shaped(rs, s) && Delivered(rs, s) && n <= |s.sent|
    ensures AllowReceived(s, n) ==> SomeAllows(rs)
    ensures n == |s.sent| && AllDone(s.phases) && SomeAllows(rs) ==> AllowReceived(s, n)
  {
    hide Admitted, CountSent;
    if k :| 0 <= k < n && s.sent[k].allows {
      assert Allows(rs[s.sent[k].from]);
    }
    if n == |s.sent| && AllDone(s.phases) && SomeAllows(rs) {
      var i :| 0 <= i < |rs| && Allows(rs[i]);
      assert HasSent(s.phases[i]);
      var k :| 0 <= k < |s.sent| && IsFrom(s, k, i);
      assert s.sent[k].allows;
    }
  }

  lemma ReceiveKeeps(mode: Mode, rs: seq<Registry>, s: State)
    requires Invariant(mode, rs, s) && s.collector.Collecting? && s.received < |s.sent|
    ensures Invariant(mode, rs, s.(received := s.received + 1, collector := Take(mode, s.collector, s.sent[s.received])))
  {
    hide SomeAllows, Recorded, BreakerKept, CountSent;
    var m := s.sent[s.received];
    AllowReceivedIsSomeAllows(rs, s, s.received + 1);
    assert m.allows ==> !m.error;
    assert AllowReceived(s, s.received + 1) == (AllowReceived(s, s.received) || m.allows);
    var t := s.(received := s.received + 1, collector := Take(mode, s.collector, m));
    assert AllowReceived(t, t.received) == AllowReceived(s, s.received + 1);
    assert forall k, i :: 0 <= k < |s.sent| ==> IsFrom(t, k, i) == IsFrom(s, k, i);
  }

  lemma CollectorStepKeeps(mode: Mode, rs: seq<Registry>, s: State, closed: bool, c: Collector)
    requires Invariant(mode, rs, s)
    requires closed ==> AllDone(s.phases)
    requires c == s.collector
          || (s.collector.Collecting? && s.closed && s.received == |s.sent| && c == Returned(s.collector.decision))
    ensures Invariant(mode, rs, s.(closed := closed, collector := c))
  {
    hide SomeAllows, BreakerKept, CountSent, Verdict;
    AllowReceivedIsSomeAllows(rs, s, s.received);
    var t := s.(closed := closed, collector := c);
    assert forall k, i :: 0 <= k < |s.sent| ==> IsFrom(t, k, i) == IsFrom(s, k, i);
    assert AllowReceived(t, t.received) == AllowReceived(s, s.received);
  }

  lemma StepKeeps(mode: Mode, rs: seq<Registry>, s: State, a: Action)
    requires Invariant(mode, rs, s) && Enabled(rs, s, a)
    ensures Invariant(mode, rs, Step(mode, rs, s, a))
  {
    hide Delivered, Collected, Verdict, Take, SomeAllows, Admitted, CountSent;
    match a
    case Begin(i) =>
      WorkerStepKeeps(mode, rs, s, i, if Admitted(rs[i]) then Evaluating else Holding, s.breakers[i]);
      assert s.breakers[i := s.breakers[i]] == s.breakers;
    case Answers(i) => WorkerStepKeeps(mode, rs, s, i, Holding, Recorded(rs[i]));
    case Send(i) => SendKeeps(mode, rs, s, i);
    case SignOff(i) =>
      WorkerStepKeeps(mode, rs, s, i, Done, s.breakers[i]);
      assert s.breakers[i := s.breakers[i]] == s.breakers;
    case Close => CollectorStepKeeps(mode, rs, s, true, s.collector);
    case Receive => ReceiveKeeps(mode, rs, s);
    case Finish => CollectorStepKeeps(mode, rs, s, s.closed, Returned(s.collector.decision));
  }

  /** Every state of every run satisfies the invariant. */
  lemma {:induction false} RunKeeps(mode: Mode, rs: seq<Registry>, actions: seq<Action>)
    requires Run(mode, rs, actions).Some?
    ensures Invariant(mode, rs, Run(mode, rs, actions).value)
  {
    hide Invariant, Enabled, Step;
    if actions == [] {
      StartInvariant(mode, rs);
    } else {
      RunKeeps(mode, rs, actions[..|actions| - 1]);
      StepKeeps(mode, rs, Run(mode, rs, actions[..|actions| - 1]).value, actions[|actions| - 1]);
    }
  }

  // ---------------------------------------------------------------- results about every interleaving

  /** No worker ever blocks on the channel, and none sends after it is closed, also when the collector has returned. */
  lemma NoSendBlocks(mode: Mode, rs: seq<Registry>, actions: seq<Action>, i: nat)
    requires Run(mode, rs, actions).Some? && i < |rs| && Run(mode, rs, actions).value.phases[i] == Holding
    ensures Enabled(rs, Run(mode, rs, actions).value, Send(i)) && !Run(mode, rs, actions).value.closed
  {
    RunKeeps(mode, rs, actions);
    CountSentRoom(Run(mode, rs, actions).value.phases, i);
  }

  ghost predicate ExactlyOneFrom(s: State, i: nat) {
    exists k :: 0 <= k < |s.sent| && IsFrom(s, k, i) && forall j :: 0 <= j < |s.sent| && IsFrom(s, j, i) ==> j == k
  }

  /** A worker has sent exactly one message, its registry's verdict, once it is past sending, and none before. */
  lemma OneMessageEach(mode: Mode, rs: seq<Registry>, actions: seq<Action>, i: nat)
    requires Run(mode, rs, actions).Some? && i < |rs|
    ensures var s := Run(mode, rs, actions).value;
            && (HasSent(s.phases[i]) ==> ExactlyOneFrom(s, i))
            && (!HasSent(s.phases[i]) ==> forall k :: 0 <= k < |s.sent| ==> !IsFrom(s, k, i))
            && (forall k :: 0 <= k < |s.sent| && IsFrom(s, k, i) ==> s.sent[k] == Verdict(rs, i))
  {
    RunKeeps(mode, rs, actions);
    hide Run, Verdict, CountSent, SomeAllows, Collected;
    var s := Run(mode, rs, actions).value;
    if HasSent(s.phases[i]) {
      var k :| 0 <= k < |s.sent| && IsFrom(s, k, i);
    }
  }

  /** Whatever the interleaving, first match and all registries return the same decision: whether some registry that its
      breaker does not skip allows. */
  lemma ParallelDecision(mode: Mode, rs: seq<Registry>, actions: seq<Action>)
    requires Run(mode, rs, actions).Some? && Run(mode, rs, actions).value.collector.Returned?
    ensures Run(mode, rs, actions).value.collector.decision == SomeAllows(rs)
  {
    RunKeeps(mode, rs, actions);
  }

  /** Everything has ended: the response is out, every worker has signed off, the channel is closed. */
  predicate Over(s: State) {
    s.collector.Returned? && AllDone(s.phases) && s.closed
  }

  /** A run that is not over can go on. */
  lemma NeverStuck(mode: Mode, rs: seq<Registry>, actions: seq<Action>)
    requires Run(mode, rs, actions).Some? && !Over(Run(mode, rs, actions).value)
    ensures exists a :: Enabled(rs, Run(mode, rs, actions).value, a)
  {
    var s := Run(mode, rs, actions).value;
    if i: nat :| i < |rs| && s.phases[i] != Done {
      match s.phases[i] {
        case Ready => assert Enabled(rs, s, Begin(i));
        case Evaluating => assert Enabled(rs, s, Answers(i));
        case Holding => NoSendBlocks(mode, rs, actions, i);
        case Sent => assert Enabled(rs, s, SignOff(i));
      }
    } else if !s.closed {
      assert Enabled(rs, s, Close);
    } else if s.received < |s.sent| {
      assert Enabled(rs, s, Receive);
    } else {
      assert Enabled(rs, s, Finish);
    }
  }

  function Left(p: Phase): nat {
    match p case Ready => 4 case Evaluating => 3 case Holding => 2 case Sent => 1 case Done => 0
  }

  function AllLeft(ps: seq<Phase>): nat {
    if ps == [] then 0 else AllLeft(ps[..|ps| - 1]) + Left(ps[|ps| - 1])
  }

  lemma {:induction false} AllLeftUpdate(ps: seq<Phase>, i: nat, p: Phase)
    requires i < |ps|
    ensures AllLeft(ps[i := p]) == AllLeft(ps) + Left(p) - Left(ps[i])
  {
    var n := |ps| - 1;
    if i < n {
      AllLeftUpdate(ps[..n], i, p);
      assert ps[i := p][..n] == ps[..n][i := p];
    } else {
      assert ps[i := p][..n] == ps[..n];
    }
  }

  /** The actions that can still happen. */
  function Remaining(rs: seq<Registry>, s: State): int
    requires Shaped(rs, s)
  {
    AllLeft(s.phases) + (if s.closed then 0 else 1) + |rs| - s.received + (if s.collector.Returned? then 0 else 1)
  }

  lemma StepsCost(mode: Mode, rs: seq<Registry>, s: State, a: Action)
    requires Shaped(rs, s) && Enabled(rs, s, a)
    ensures Remaining(rs, Step(mode, rs, s, a)) < Remaining(rs, s)
  {
    hide Admitted, Verdict, AllDone;
    match a
    case Begin(i) => AllLeftUpdate(s.phases, i, if Admitted(rs[i]) then Evaluating else Holding);
    case Answers(i) => AllLeftUpdate(s.phases, i, Holding);
    case Send(i) => AllLeftUpdate(s.phases, i, Sent);
    case SignOff(i) => AllLeftUpdate(s.phases, i, Done);
    case _ =>
  }

  lemma {:induction false} StartLeft(ps: seq<Phase>)
    requires forall i :: 0 <= i < |ps| ==> ps[i] == Ready
    ensures AllLeft(ps) == 4 * |ps|
  {
    if ps != [] { StartLeft(ps[..|ps| - 1]); }
  }

  lemma {:induction false} RunCost(mode: Mode, rs: seq<Registry>, actions: seq<Action>)
    requires Run(mode, rs, actions).Some?
    ensures |actions| + Remaining(rs, Run(mode, rs, actions).value) <= 5 * |rs| + 2
  {
    hide Enabled, Step, Remaining;
    if actions == [] {
      StartCost(rs);
    } else {
      RunCost(mode, rs, actions[..|actions| - 1]);
      StepsCost(mode, rs, Run(mode, rs, actions[..|actions| - 1]).value, actions[|actions| - 1]);
    }
  }

  lemma StartCost(rs: seq<Registry>)
    ensures Remaining(rs, Start(rs)) == 5 * |rs| + 2
  {
    StartLeft(Start(rs).phases);
  }

  /** No interleaving goes on for more than five actions a registry and two more; with NeverStuck, each one ends with the
      response out, every worker finished and every breaker recorded. */
  lemma EveryRunEnds(mode: Mode, rs: seq<Registry>, actions: seq<Action>)
    requires Run(mode, rs, actions).Some?
    ensures |actions| <= 5 * |rs| + 2
    ensures (forall a :: !Enabled(rs, Run(mode, rs, actions).value, a)) ==>
              var s := Run(mode, rs, actions).value;
              && s.collector == Returned(SomeAllows(rs)) && |s.sent| == |rs|
              && forall i :: 0 <= i < |rs| ==> s.breakers[i] == Recorded(rs[i])
  {
    var s := Run(mode, rs, actions).value;
    RunKeeps(mode, rs, actions);
    RunCost(mode, rs, actions);
    SentAtMost(rs, s);
    if forall a :: !Enabled(rs, s, a) {
      if !Over(s) { NeverStuck(mode, rs, actions); }
      hide Run, Enabled, Recorded, SomeAllows;
      AllSent(s.phases);
    }
  }

  lemma SentAtMost(rs: seq<Registry>, s: State)
    requires Shaped(rs, s) && Delivered(rs, s)
    ensures |s.sent| <= |rs| && 0 <= Remaining(rs, s)
  {
  }

  lemma {:induction false} AllSent(ps: seq<Phase>)
    requires AllDone(ps)
    ensures CountSent(ps) == |ps|
  {
    if ps != [] { AllSent(ps[..|ps| - 1]); }
  }
}
