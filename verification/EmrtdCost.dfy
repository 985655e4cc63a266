/** The work of a search: the signature checks it makes, and the budget it needs. */
module EmrtdCost {
  import opened Options
  import opened EmrtdChain
  import opened EmrtdSearch

  /** The checks that a part of a search makes, the steps that must be left when it starts so that it is not stopped, and
      whether it ends the search. The budget is looked at before every candidate, also before one that is then skipped, so
      cost and need can differ. */
  datatype Work = Work(cost: nat, need: nat, hit: bool)

  const NO_WORK := Work(0, 0, false)

  function Then(a: Work, b: Work): Work {
    if a.hit then a
    else Work(a.cost + b.cost, if b.need == 0 || a.need >= a.cost + b.need then a.need else a.cost + b.need, b.hit)
  }

  /** A candidate that is skipped, and one that is checked. */
  const SKIPPED := Work(0, 1, false)
  const CHECKED := Work(1, 1, false)

  /** What a search is for: a chain acceptable under the rules, or any chain. */
  type Goal = Option<Rules>

  ghost predicate Suits(goal: Goal, c: Path) {
    |c| >= 2 && (goal.Some? ==> Verdict(goal.value, c).None?)
  }

  ghost function AnchorTurnWork(goal: Goal, pool: Pool, path: Path, a: Cert): Work
    requires path != []
  {
    if InPath(path, a) then SKIPPED else CHECKED.(hit := AnchorStep(pool, path, a) && Suits(goal, path + [a]))
  }

  ghost function AnchorWork(goal: Goal, pool: Pool, path: Path, n: nat): Work
    requires path != [] && n <= |pool.anchors|
  {
    if n == 0 then NO_WORK
    else Then(AnchorWork(goal, pool, path, n - 1), AnchorTurnWork(goal, pool, path, pool.anchors[n - 1]))
  }

  ghost function PollWork(pool: Pool, path: Path, e: Cert): Work {
    if InPath(path, e) || IsAnchor(pool, e) then SKIPPED else CHECKED
  }

  /** The walk that goes on from a link, if it does. */
  ghost function OnwardWork(goal: Goal, pool: Pool, path: Path, e: Cert): Work
    requires 1 <= |path| < MAX_CHAIN_LEN - 1
    decreases MAX_CHAIN_LEN - |path|, 0, 0
  {
    if LinkStep(pool, path, e) then WalkWork(goal, pool, path + [e]) else NO_WORK
  }

  ghost function LinkTurnWork(goal: Goal, pool: Pool, path: Path, e: Cert): Work
    requires 1 <= |path| < MAX_CHAIN_LEN - 1
    decreases MAX_CHAIN_LEN - |path|, 1, 0
  {
    Then(PollWork(pool, path, e), OnwardWork(goal, pool, path, e))
  }

  ghost function LinkWork(goal: Goal, pool: Pool, path: Path, n: nat): Work
    requires 1 <= |path| < MAX_CHAIN_LEN - 1 && n <= |pool.extras|
    decreases MAX_CHAIN_LEN - |path|, 2, n
  {
    if n == 0 then NO_WORK
    else Then(LinkWork(goal, pool, path, n - 1), LinkTurnWork(goal, pool, path, pool.extras[n - 1]))
  }

  /** A walk from the path, up to the first chain that suits the goal or else to the end. */
  ghost function WalkWork(goal: Goal, pool: Pool, path: Path): Work
    requires 1 <= |path| < MAX_CHAIN_LEN
    decreases MAX_CHAIN_LEN - |path|, 3, 0
  {
    Then(AnchorWork(goal, pool, path, |pool.anchors|),
         if |path| >= MAX_CHAIN_LEN - 1 then NO_WORK else LinkWork(goal, pool, path, |pool.extras|))
  }

  // ---------------------------------------------------------------- what a hit is

  ghost predicate AnySuits(goal: Goal, cs: seq<Path>) {
    exists c :: c in cs && Suits(goal, c)
  }

  lemma AnySuitsConcat(goal: Goal, cs: seq<Path>, ds: seq<Path>)
    ensures AnySuits(goal, cs + ds) <==> AnySuits(goal, cs) || AnySuits(goal, ds)
  {
    hide Suits;
    assert forall c :: c in cs + ds <==> c in cs || c in ds;
  }

  lemma {:induction false} AnchorHits(goal: Goal, pool: Pool, path: Path, n: nat)
    requires path != [] && n <= |pool.anchors|
    ensures AnchorWork(goal, pool, path, n).hit <==> AnySuits(goal, AnchorChains(pool, path, n))
  {
    hide Suits, AnchorStep;
    if n > 0 {
      AnchorHits(goal, pool, path, n - 1);
      AnchorTurnHits(goal, pool, path, pool.anchors[n - 1]);
      AnySuitsConcat(goal, AnchorChains(pool, path, n - 1), AnchorTurn(pool, path, pool.anchors[n - 1]));
    }
  }

  lemma AnchorTurnHits(goal: Goal, pool: Pool, path: Path, a: Cert)
    requires path != []
    ensures AnchorTurnWork(goal, pool, path, a).hit <==> AnySuits(goal, AnchorTurn(pool, path, a))
  {
    hide Suits;
    if AnchorStep(pool, path, a) { assert path + [a] in AnchorTurn(pool, path, a); }
  }

  lemma {:induction false} LinkHits(goal: Goal, pool: Pool, path: Path, n: nat)
    requires 1 <= |path| < MAX_CHAIN_LEN - 1 && n <= |pool.extras|
    ensures LinkWork(goal, pool, path, n).hit <==> AnySuits(goal, LinkChains(pool, path, n))
    decreases MAX_CHAIN_LEN - |path|, 1, n
  {
    hide LinkTurnWork, LinkTurn, AnySuits;
    NoneSuits(goal);
    if n > 0 {
      LinkHits(goal, pool, path, n - 1);
      LinkTurnHits(goal, pool, path, pool.extras[n - 1]);
      AnySuitsConcat(goal, LinkChains(pool, path, n - 1), LinkTurn(pool, path, pool.extras[n - 1]));
    }
  }

  lemma {:induction false} LinkTurnHits(goal: Goal, pool: Pool, path: Path, e: Cert)
    requires 1 <= |path| < MAX_CHAIN_LEN - 1
    ensures LinkTurnWork(goal, pool, path, e).hit <==> AnySuits(goal, LinkTurn(pool, path, e))
    decreases MAX_CHAIN_LEN - |path|, 0, 0
  {
    hide WalkWork, Chains, AnySuits, LinkStep, InPath, IsAnchor;
    NoneSuits(goal);
    if LinkStep(pool, path, e) { WalkHits(goal, pool, path + [e]); }
  }

  lemma NoneSuits(goal: Goal)
    ensures !AnySuits(goal, [])
  {
  }

  /** A walk is ended by a chain exactly when some chain suits the goal. */
  lemma {:induction false} WalkHits(goal: Goal, pool: Pool, path: Path)
    requires 1 <= |path| < MAX_CHAIN_LEN
    ensures WalkWork(goal, pool, path).hit <==> AnySuits(goal, Chains(pool, path))
    decreases MAX_CHAIN_LEN - |path|, 2, 0
  {
    hide AnySuits, AnchorChains, LinkChains, AnchorWork, LinkWork;
    NoneSuits(goal);
    AnchorHits(goal, pool, path, |pool.anchors|);
    if |path| < MAX_CHAIN_LEN - 1 {
      LinkHits(goal, pool, path, |pool.extras|);
      AnySuitsConcat(goal, AnchorChains(pool, path, |pool.anchors|), LinkChains(pool, path, |pool.extras|));
    } else {
      assert AnchorChains(pool, path, |pool.anchors|) + [] == AnchorChains(pool, path, |pool.anchors|);
    }
  }

  // ---------------------------------------------------------------- spending a budget

  predicate Fits(steps: int, w: Work) {
    w.need <= steps
  }

  /** All of the work was done. */
  predicate Spends(before: int, after: int, w: Work) {
    after == before - w.cost && Fits(before, w)
  }

  /** No more than the work was done. */
  predicate Within(before: int, after: int, w: Work) {
    before - w.cost <= after <= before
  }

  /** What a part of a search does with its budget: no more than the work; all of it, unless it is stopped, and then it is done
      exactly when the work says so; and it is not stopped when the budget is enough and nothing else stops it. */
  ghost predicate Worked(undisturbed: bool, wasLatched: bool, latched: bool, done: bool, before: int, after: int, w: Work) {
    && Within(before, after, w)
    && (!latched ==> Spends(before, after, w) && done == w.hit)
    && (latched ==> !done)
    && (undisturbed && !wasLatched && Fits(before, w) ==> !latched)
  }

  lemma WorkedNothing(undisturbed: bool, before: int)
    requires before >= 0
    ensures Worked(undisturbed, false, false, false, before, before, NO_WORK)
  {
  }

  lemma WorkedThen(undisturbed: bool, wasLatched: bool, latched: bool, done: bool, before: int, middle: int, after: int,
                   a: Work, b: Work)
    requires Worked(undisturbed, wasLatched, false, false, before, middle, a) && middle >= 0
    requires Worked(undisturbed, false, latched, done, middle, after, b)
    ensures Worked(undisturbed, wasLatched, latched, done, before, after, Then(a, b))
  {
  }

  /** a is the work up to some point of w. */
  ghost predicate PartOf(a: Work, w: Work) {
    a.cost <= w.cost && a.need <= w.need && (a.hit ==> w == a)
  }

  lemma WorkedPart(undisturbed: bool, wasLatched: bool, latched: bool, done: bool, before: int, after: int, a: Work, w: Work)
    requires Worked(undisturbed, wasLatched, latched, done, before, after, a) && (latched || done) && PartOf(a, w)
    ensures Worked(undisturbed, wasLatched, latched, done, before, after, w)
  {
  }

  /** Where a first part is all that was done. */
  lemma WorkedFirst(undisturbed: bool, latched: bool, done: bool, before: int, after: int, a: Work, b: Work)
    requires Worked(undisturbed, false, latched, done, before, after, a) && (latched || done || b == NO_WORK)
    ensures Worked(undisturbed, false, latched, done, before, after, Then(a, b))
  {
  }

  lemma {:induction false} PartOfAnchorWork(goal: Goal, pool: Pool, path: Path, n: nat)
    requires path != [] && n <= |pool.anchors|
    ensures PartOf(AnchorWork(goal, pool, path, n), AnchorWork(goal, pool, path, |pool.anchors|))
    decreases |pool.anchors| - n
  {
    if n < |pool.anchors| {
      PartOfAnchorWork(goal, pool, path, n + 1);
    }
  }

  lemma {:induction false} PartOfLinkWork(goal: Goal, pool: Pool, path: Path, n: nat)
    requires 1 <= |path| < MAX_CHAIN_LEN - 1 && n <= |pool.extras|
    ensures PartOf(LinkWork(goal, pool, path, n), LinkWork(goal, pool, path, |pool.extras|))
    decreases |pool.extras| - n
  {
    hide LinkTurnWork;
    if n < |pool.extras| {
      PartOfLinkWork(goal, pool, path, n + 1);
    }
  }

  // ---------------------------------------------------------------- in numbers

  /** A budget that is larger than the checks is enough. */
  predicate Tight(w: Work) {
    w.cost <= w.need <= w.cost + 1
  }

  lemma TightThen(a: Work, b: Work)
    requires Tight(a) && Tight(b)
    ensures Tight(Then(a, b))
  {
  }

  /** The most checks a walk from a path of length k can take, with a anchors and e extras. */
  function Most(a: nat, e: nat, k: nat): nat
    requires 1 <= k < MAX_CHAIN_LEN
    decreases MAX_CHAIN_LEN - k
  {
    if k >= MAX_CHAIN_LEN - 1 then a else a + e * (1 + Most(a, e, k + 1))
  }

  /** From the document signer, with at most three links on the way. */
  lemma MostFromSigner(a: nat, e: nat)
    ensures Most(a, e, 1) == a + e * (1 + a + e * (1 + a + e * (1 + a)))
  {
    assert Most(a, e, 3) == a + e * (1 + a);
    assert Most(a, e, 2) == a + e * (1 + Most(a, e, 3));
  }

  lemma {:induction false} AnchorWorkAtMost(goal: Goal, pool: Pool, path: Path, n: nat)
    requires path != [] && n <= |pool.anchors|
    ensures Tight(AnchorWork(goal, pool, path, n)) && AnchorWork(goal, pool, path, n).cost <= n
  {
    if n > 0 {
      AnchorWorkAtMost(goal, pool, path, n - 1);
    }
  }

  lemma PollAtMost(pool: Pool, path: Path, e: Cert)
    ensures Tight(PollWork(pool, path, e)) && PollWork(pool, path, e).cost <= 1
  {
  }

  lemma {:induction false} OnwardAtMost(goal: Goal, pool: Pool, path: Path, e: Cert)
    requires 1 <= |path| < MAX_CHAIN_LEN - 1
    ensures Tight(OnwardWork(goal, pool, path, e))
    ensures OnwardWork(goal, pool, path, e).cost <= Most(|pool.anchors|, |pool.extras|, |path| + 1)
    decreases MAX_CHAIN_LEN - |path|, 0, 0
  {
    hide LinkStep, WalkWork, Most, Tight;
    NoWorkIsTight();
    if LinkStep(pool, path, e) { WalkWorkAtMost(goal, pool, path + [e]); }
  }

  lemma {:induction false} LinkTurnAtMost(goal: Goal, pool: Pool, path: Path, e: Cert)
    requires 1 <= |path| < MAX_CHAIN_LEN - 1
    ensures Tight(LinkTurnWork(goal, pool, path, e))
    ensures LinkTurnWork(goal, pool, path, e).cost <= 1 + Most(|pool.anchors|, |pool.extras|, |path| + 1)
    decreases MAX_CHAIN_LEN - |path|, 1, 0
  {
    hide PollWork, OnwardWork, Most, Tight;
    PollAtMost(pool, path, e);
    OnwardAtMost(goal, pool, path, e);
    TightThen(PollWork(pool, path, e), OnwardWork(goal, pool, path, e));
  }

  lemma {:induction false} LinkWorkAtMost(goal: Goal, pool: Pool, path: Path, n: nat)
    requires 1 <= |path| < MAX_CHAIN_LEN - 1 && n <= |pool.extras|
    ensures Tight(LinkWork(goal, pool, path, n))
    ensures LinkWork(goal, pool, path, n).cost <= n * (1 + Most(|pool.anchors|, |pool.extras|, |path| + 1))
    decreases MAX_CHAIN_LEN - |path|, 2, n
  {
    hide LinkTurnWork, Tight, Most;
    if n == 0 {
      NoWorkIsTight();
    } else {
      var m := 1 + Most(|pool.anchors|, |pool.extras|, |path| + 1);
      LinkWorkAtMost(goal, pool, path, n - 1);
      LinkTurnAtMost(goal, pool, path, pool.extras[n - 1]);
      TightThen(LinkWork(goal, pool, path, n - 1), LinkTurnWork(goal, pool, path, pool.extras[n - 1]));
      assert (n - 1) * m + m == n * m;
    }
  }

  lemma NoWorkIsTight()
    ensures Tight(NO_WORK)
  {
  }

  lemma MostStep(a: nat, e: nat, k: nat)
    requires 1 <= k < MAX_CHAIN_LEN
    ensures Most(a, e, k) == if k >= MAX_CHAIN_LEN - 1 then a else a + e * (1 + Most(a, e, k + 1))
  {
  }

  /** A walk's checks are bounded by the numbers of anchors and extras, and it fits any budget above its checks. */
  lemma {:induction false} WalkWorkAtMost(goal: Goal, pool: Pool, path: Path)
    requires 1 <= |path| < MAX_CHAIN_LEN
    ensures Tight(WalkWork(goal, pool, path))
    ensures WalkWork(goal, pool, path).cost <= Most(|pool.anchors|, |pool.extras|, |path|)
    decreases MAX_CHAIN_LEN - |path|, 3, 0
  {
    hide AnchorWork, LinkWork, Tight, Most;
    NoWorkIsTight();
    MostStep(|pool.anchors|, |pool.extras|, |path|);
    AnchorWorkAtMost(goal, pool, path, |pool.anchors|);
    if |path| < MAX_CHAIN_LEN - 1 {
      LinkWorkAtMost(goal, pool, path, |pool.extras|);
      TightThen(AnchorWork(goal, pool, path, |pool.anchors|), LinkWork(goal, pool, path, |pool.extras|));
    } else {
      TightThen(AnchorWork(goal, pool, path, |pool.anchors|), NO_WORK);
    }
  }
}
