/** One eMRTD evaluation: request checks, the search for the claimed state, and the wrong-country probes. */
module EmrtdEvaluate {
  import opened Options
  import opened EmrtdChain
  import opened EmrtdSearch
  import opened EmrtdCost
  import opened EmrtdWalk
  import opened EmrtdRequest
  import opened EmrtdMeaning

  // ---------------------------------------------------------------- chains and trust

  lemma ChainsToMeaning(r: Registry, req: Request, country: string)
    requires req.key.Certs?
    ensures ChainsTo(r, req, country) <==> Chains(PoolFor(r, req, country), [req.key.dsc]) != []
  {
    hide Chains;
    var pool := PoolFor(r, req, country);
    var all := Chains(pool, [req.key.dsc]);
    if all != [] {
      ChainsAreExactly(pool, req.key.dsc, all[0]);
    }
    if c :| IsChain(pool, c) && c[0] == req.key.dsc {
      ChainsAreExactly(pool, req.key.dsc, c);
    }
  }

  /** A finished walk that accepted nothing has seen, and turned down, every chain. */
  lemma CompleteMeansUntrusted(r: Registry, req: Request, tried: seq<Path>)
    requires PreCheck(r, req).None?
    requires tried == Chains(PoolFor(r, req, r.normalize(req.subjectId)), [req.key.dsc])
    requires forall i :: 0 <= i < |tried| ==> |tried[i]| >= 2 && Verdict(RulesFor(r, req), tried[i]).Some?
    ensures !Trusted(r, req)
  {
    hide Chains, Verdict, Acceptable;
    var pool := PoolFor(r, req, r.normalize(req.subjectId));
    forall c | IsChain(pool, c) && c[0] == req.key.dsc
      ensures !Acceptable(RulesFor(r, req), c)
    {
      ChainsAreExactly(pool, req.key.dsc, c);
      VerdictMeaning(RulesFor(r, req), c);
      var i :| 0 <= i < |tried| && tried[i] == c;
    }
  }

  lemma AcceptedMeansTrusted(r: Registry, req: Request, tried: seq<Path>, c: Path)
    requires PreCheck(r, req).None?
    requires tried <= Chains(PoolFor(r, req, r.normalize(req.subjectId)), [req.key.dsc])
    requires c in tried && |c| >= 2 && Verdict(RulesFor(r, req), c).None?
    ensures IsChain(PoolFor(r, req, r.normalize(req.subjectId)), c) && c[0] == req.key.dsc && Acceptable(RulesFor(r, req), c)
    ensures Trusted(r, req)
  {
    hide Chains, IsChain, Verdict, Acceptable;
    ChainsAreExactly(PoolFor(r, req, r.normalize(req.subjectId)), req.key.dsc, c);
    VerdictMeaning(RulesFor(r, req), c);
  }

  /** CRL signatures are checked at most once per CRL and possible issuer. */
  lemma MemoBound(keys: set<CrlKey>, crls: seq<CrlData>, issuers: seq<Cert>)
    requires forall k :: k in keys ==> k.crl in crls && k.issuer in Raws(issuers)
    ensures |keys| <= |crls| * |issuers|
  {
    if crls == [] {
      assert keys == {};
    } else {
      var mine := set k | k in keys && k.crl == crls[0];
      var rest := keys - mine;
      assert forall k :: k in rest ==> k.crl in crls[1..];
      MemoBound(rest, crls[1..], issuers);
      OnePerIssuer(mine, crls[0], set k | k in mine :: k.issuer);
      RawsBound(set k | k in mine :: k.issuer, issuers);
      assert |keys| == |mine| + |rest|;
      Distribute(|crls|, |issuers|);
    }
  }

  lemma Distribute(m: nat, n: nat)
    requires m > 0
    ensures m * n == n + (m - 1) * n
  {
  }

  lemma OnePerIssuer(keys: set<CrlKey>, crl: CrlData, raws: set<Bytes>)
    requires forall k :: k in keys ==> k.crl == crl
    requires raws == set k | k in keys :: k.issuer
    ensures |keys| == |raws|
  {
    if keys != {} {
      var k :| k in keys;
      OnePerIssuer(keys - {k}, crl, raws - {k.issuer});
      assert raws - {k.issuer} == set l | l in keys - {k} :: l.issuer;
    }
  }

  lemma RawsBound(raws: set<Bytes>, issuers: seq<Cert>)
    requires raws <= Raws(issuers)
    ensures |raws| <= |issuers|
  {
    if issuers == [] {
      assert raws == {};
    } else {
      RawsBound(raws - {issuers[0].raw}, issuers[1..]);
      assert |raws| <= |raws - {issuers[0].raw}| + 1;
    }
  }

  // ---------------------------------------------------------------- the evaluation

  /** The signature checks an evaluation made: on paths, and on revocation lists. */
  datatype Effort = Effort(checks: nat, crlChecks: nat)

  /** Signature checks revocation may cost: one per CRL of the claimed state and possible issuer. */
  ghost function CrlBudget(r: Registry, req: Request): nat {
    var country := r.normalize(req.subjectId);
    |Crls(r, country)| * (|Anchors(r, country)| + if req.key.Certs? then |req.key.extras| else 0)
  }

  lemma MemoFitsBudget(r: Registry, req: Request, keys: set<CrlKey>)
    requires req.key.Certs?
    requires forall k :: k in keys ==>
               && k.crl in Crls(r, r.normalize(req.subjectId))
               && k.issuer in Raws(Anchors(r, r.normalize(req.subjectId)) + req.key.extras)
    ensures |keys| <= CrlBudget(r, req)
  {
    var country := r.normalize(req.subjectId);
    MemoBound(keys, Crls(r, country), Anchors(r, country) + req.key.extras);
  }

  /** The work of searching the claimed state's anchors, up to the first acceptable chain. */
  ghost function ClaimedWork(r: Registry, req: Request): Work
    requires PreCheck(r, req).None?
  {
    WalkWork(Some(RulesFor(r, req)), PoolFor(r, req, r.normalize(req.subjectId)), [req.key.dsc])
  }

  /** The work of probing the other states' anchors, for the first n states in order, up to the first chain. */
  ghost function ProbesWork(r: Registry, req: Request, order: seq<string>, n: nat): Work
    requires req.key.Certs? && n <= |order|
  {
    if n == 0 then NO_WORK
    else Then(ProbesWork(r, req, order, n - 1), ProbeWork(r, req, order[n - 1]))
  }

  ghost function ProbeWork(r: Registry, req: Request, other: string): Work
    requires req.key.Certs?
  {
    if other == r.normalize(req.subjectId) then NO_WORK else WalkWork(None, PoolFor(r, req, other), [req.key.dsc])
  }

  /** The work of the whole evaluation: the other states are probed only when the claimed one's anchors complete no chain. */
  ghost function SearchWork(r: Registry, req: Request, order: seq<string>): Work
    requires PreCheck(r, req).None?
  {
    if ChainsTo(r, req, r.normalize(req.subjectId)) then ClaimedWork(r, req)
    else Then(ClaimedWork(r, req), ProbesWork(r, req, order, |order|))
  }

  lemma AnySuitsMeaning(r: Registry, req: Request, country: string, goal: Goal)
    requires req.key.Certs?
    ensures AnySuits(goal, Chains(PoolFor(r, req, country), [req.key.dsc])) <==>
              exists c :: IsChain(PoolFor(r, req, country), c) && c[0] == req.key.dsc && Suits(goal, c)
  {
    hide Suits, Chains;
    var pool := PoolFor(r, req, country);
    var all := Chains(pool, [req.key.dsc]);
    if c :| c in all && Suits(goal, c) {
      ChainsAreExactly(pool, req.key.dsc, c);
    }
    if c :| IsChain(pool, c) && c[0] == req.key.dsc && Suits(goal, c) {
      ChainsAreExactly(pool, req.key.dsc, c);
    }
  }

  /** The claimed state's part of the work ends in a hit exactly when the request is to be trusted. */
  lemma ClaimedWorkHits(r: Registry, req: Request)
    requires PreCheck(r, req).None?
    ensures ClaimedWork(r, req).hit <==> Trusted(r, req)
  {
    hide WalkWork, AnySuits, Chains, Verdict, Acceptable, PathLenFromContext;
    var pool := PoolFor(r, req, r.normalize(req.subjectId));
    WalkHits(Some(RulesFor(r, req)), pool, [req.key.dsc]);
    AnySuitsMeaning(r, req, r.normalize(req.subjectId), Some(RulesFor(r, req)));
    forall c | IsChain(pool, c) ensures Suits(Some(RulesFor(r, req)), c) <==> Acceptable(RulesFor(r, req), c) {
      VerdictMeaning(RulesFor(r, req), c);
    }
  }

  /** A probe's does when that state's anchors complete a chain. */
  lemma ProbeWorkHits(r: Registry, req: Request, other: string)
    requires req.key.Certs?
    ensures ProbeWork(r, req, other).hit <==> other != r.normalize(req.subjectId) && ChainsTo(r, req, other)
  {
    hide WalkWork, AnySuits, Chains;
    WalkHits(None, PoolFor(r, req, other), [req.key.dsc]);
    AnySuitsMeaning(r, req, other, None);
  }

  lemma {:induction false} PartOfProbesWork(r: Registry, req: Request, order: seq<string>, n: nat)
    requires req.key.Certs? && n <= |order|
    ensures PartOf(ProbesWork(r, req, order, n), ProbesWork(r, req, order, |order|))
    decreases |order| - n
  {
    hide ProbeWork;
    if n < |order| {
      PartOfProbesWork(r, req, order, n + 1);
    }
  }

  // ---------------------------------------------------------------- the work in numbers

  /** A bound on the checks for the first n states in order, from one for each state. */
  ghost function MostProbes(r: Registry, req: Request, most: string -> nat, order: seq<string>, n: nat): nat
    requires n <= |order|
  {
    if n == 0 then 0
    else MostProbes(r, req, most, order, n - 1) + if order[n - 1] == r.normalize(req.subjectId) then 0 else most(order[n - 1])
  }

  /** Every state's walk takes at most so many checks. */
  ghost predicate Bounds(r: Registry, req: Request, most: string -> nat)
    requires req.key.Certs?
  {
    && (forall other :: ProbeWork(r, req, other).cost <= most(other))
    && (PreCheck(r, req).None? ==> ClaimedWork(r, req).cost <= most(r.normalize(req.subjectId)))
  }

  lemma {:induction false} ProbesAtMost(r: Registry, req: Request, most: string -> nat, order: seq<string>, n: nat)
    requires req.key.Certs? && n <= |order| && Bounds(r, req, most)
    ensures Tight(ProbesWork(r, req, order, n)) && ProbesWork(r, req, order, n).cost <= MostProbes(r, req, most, order, n)
  {
    hide WalkWork, Tight;
    NoWorkIsTight();
    if n > 0 {
      ProbesAtMost(r, req, most, order, n - 1);
      WalkWorkAtMost(None, PoolFor(r, req, order[n - 1]), [req.key.dsc]);
      assert ProbeWork(r, req, order[n - 1]).cost <= most(order[n - 1]);
      TightThen(ProbesWork(r, req, order, n - 1), ProbeWork(r, req, order[n - 1]));
    }
  }

  lemma SmallFits(a: Work, b: Work, m: nat, n: nat)
    requires Tight(a) && Tight(b) && a.cost <= m && b.cost <= n
    ensures m + n < MAX_SEARCH_STEPS ==> Fits(MAX_SEARCH_STEPS, a) && Fits(MAX_SEARCH_STEPS, Then(a, b))
  {
    TightThen(a, b);
  }

  /** What a state's walk can take, going by the number a of its anchors and e of the supplied certificates alone. */
  ghost function MostByCount(r: Registry, req: Request): string -> nat
    requires req.key.Certs?
  {
    other => var a, e := |Anchors(r, other)|, |req.key.extras|; a + e * (1 + a + e * (1 + a + e * (1 + a)))
  }

  lemma CountBounds(r: Registry, req: Request)
    requires req.key.Certs?
    ensures Bounds(r, req, MostByCount(r, req))
  {
    hide WalkWork, Most, PathLenFromContext;
    forall other ensures ProbeWork(r, req, other).cost <= MostByCount(r, req)(other) {
      WalkWorkAtMost(None, PoolFor(r, req, other), [req.key.dsc]);
      MostFromSigner(|Anchors(r, other)|, |req.key.extras|);
    }
    if PreCheck(r, req).None? {
      var country := r.normalize(req.subjectId);
      WalkWorkAtMost(Some(RulesFor(r, req)), PoolFor(r, req, country), [req.key.dsc]);
      MostFromSigner(|Anchors(r, country)|, |req.key.extras|);
    }
  }

  /** Counting certificates, or any other bound on each state's walk, tells that a request is searched through: the sum over the
      states fits when it is below 2000. */
  lemma FewCertificatesFit(r: Registry, req: Request, most: string -> nat, order: seq<string>)
    requires req.key.Certs? && Bounds(r, req, most)
    ensures PreCheck(r, req).None?
            && most(r.normalize(req.subjectId)) + MostProbes(r, req, most, order, |order|) < MAX_SEARCH_STEPS
        ==> Fits(MAX_SEARCH_STEPS, SearchWork(r, req, order))
  {
    hide WalkWork, MostProbes, Then, Fits, Tight, ChainsTo, PathLenFromContext;
    if PreCheck(r, req).None? {
      var country, goal := r.normalize(req.subjectId), Some(RulesFor(r, req));
      WalkWorkAtMost(goal, PoolFor(r, req, country), [req.key.dsc]);
      ProbesAtMost(r, req, most, order, |order|);
      SmallFits(ClaimedWork(r, req), ProbesWork(r, req, order, |order|), most(country), MostProbes(r, req, most, order, |order|));
    }
  }

  // ---------------------------------------------------------------- the two searches

  /** The code an exhaustive search denies with. */
  ghost predicate DenialFits(r: Registry, req: Request, code: Code)
    requires PreCheck(r, req).None?
  {
    var country := r.normalize(req.subjectId);
    var all := Chains(PoolFor(r, req, country), [req.key.dsc]);
    if ChainsTo(r, req, country) then all != [] && |all[0]| >= 2 && Verdict(RulesFor(r, req), all[0]) == Some(code)
    else if ChainsElsewhere(r, req) then code == CountryMismatch
    else if NameMatched(r, req) then code == ChainInvalid
    else code == NoAnchor
  }

  /** The search of the claimed state's anchors. */
  method SearchClaimed(r: Registry, req: Request, s: Search) returns (b: PathBuilder, vc: CrlVerdicts)
    requires PreCheck(r, req).None? && s.Budget() && !s.Latched()
    requires forall crl :: crl in Crls(r, r.normalize(req.subjectId)) ==> crl.Indexed()
    modifies s
    ensures s.Budget() && fresh(b) && fresh(vc)
    ensures LogOf(UnderRules(RulesFor(r, req), vc), b.tried, b.done, b.found, b.first, b.accepted)
    ensures b.tried <= Chains(PoolFor(r, req, r.normalize(req.subjectId)), [req.key.dsc])
    ensures !b.done && !s.Latched() ==>
              && b.tried == Chains(PoolFor(r, req, r.normalize(req.subjectId)), [req.key.dsc])
              && b.nameMatched == NameHit(PoolFor(r, req, r.normalize(req.subjectId)), [req.key.dsc])
    ensures vc.checks <= CrlBudget(r, req)
    ensures Worked(s.Undisturbed(), false, s.Latched(), b.done, old(s.steps), s.steps, ClaimedWork(r, req))
  {
    hide Chains, LogOf, NameHit, CrlBudget, WalkWork, Worked;
    var country := r.normalize(req.subjectId);
    var pool := PoolFor(r, req, country);
    vc := new CrlVerdicts();
    b := BuildPaths(s, req.key.dsc, pool, UnderRules(RulesFor(r, req), vc));
    assert vc.Memory(RulesFor(r, req), Raws(Anchors(r, country) + req.key.extras));
    MemoFitsBudget(r, req, vc.verdicts.Keys);
  }

  /** What the flags of the claimed state's walk say about trust. */
  lemma Interpret(r: Registry, req: Request, vc: CrlVerdicts, tried: seq<Path>, done: bool, found: bool,
                  first: Option<Code>, accepted: Option<Path>)
    requires PreCheck(r, req).None?
    requires LogOf(UnderRules(RulesFor(r, req), vc), tried, done, found, first, accepted)
    requires tried <= Chains(PoolFor(r, req, r.normalize(req.subjectId)), [req.key.dsc])
    ensures accepted.Some? == done
    ensures done ==>
              && IsChain(PoolFor(r, req, r.normalize(req.subjectId)), accepted.value) && accepted.value[0] == req.key.dsc
              && Acceptable(RulesFor(r, req), accepted.value) && Trusted(r, req)
    ensures !done && tried == Chains(PoolFor(r, req, r.normalize(req.subjectId)), [req.key.dsc]) ==>
              && !Trusted(r, req)
              && found == ChainsTo(r, req, r.normalize(req.subjectId))
              && (found ==> first.Some? && DenialFits(r, req, first.value))
  {
    hide Chains, Verdict, Acceptable, IsChain, ChainsElsewhere, NameMatched;
    var country := r.normalize(req.subjectId);
    if done {
      AcceptedMeansTrusted(r, req, tried, accepted.value);
    } else if tried == Chains(PoolFor(r, req, country), [req.key.dsc]) {
      ChainsToMeaning(r, req, country);
      CompleteMeansUntrusted(r, req, tried);
    }
  }

  /** One of the first n states in order, other than the claimed one, would complete a chain. */
  ghost predicate ProbeHits(r: Registry, req: Request, order: seq<string>, n: nat)
    requires req.key.Certs? && n <= |order|
  {
    exists j :: 0 <= j < n && order[j] != r.normalize(req.subjectId) && ChainsTo(r, req, order[j])
  }

  lemma ProbeHitsMeaning(r: Registry, req: Request, order: seq<string>)
    requires PreCheck(r, req).None? && forall c :: c in order <==> c in r.snap.value.anchors
    ensures ProbeHits(r, req, order, |order|) == ChainsElsewhere(r, req)
  {
    hide ChainsTo, PathLenFromContext;
  }

  /** The loop over the other states; hit tells whether one of them would complete a chain. */
  method ProbeOthers(r: Registry, req: Request, s: Search, order: seq<string>) returns (hit: bool)
    requires req.key.Certs? && s.Budget() && !s.Latched()
    modifies s
    ensures s.Budget()
    ensures !s.Latched() ==> hit == ProbeHits(r, req, order, |order|)
    ensures Worked(s.Undisturbed(), false, s.Latched(), hit, old(s.steps), s.steps, ProbesWork(r, req, order, |order|))
  {
    hide ChainsTo, Search.Budget, Worked, ProbeWork, Then;
    hit := false;
    BudgetLeft(s);
    WorkedNothing(s.Undisturbed(), s.steps);
    for i := 0 to |order|
      invariant s.Budget() && !s.Latched() && !hit && !ProbeHits(r, req, order, i)
      invariant Worked(s.Undisturbed(), false, false, false, old(s.steps), s.steps, ProbesWork(r, req, order, i))
    {
      ghost var middle := s.steps;
      BudgetLeft(s);
      hit := ProbeOne(r, req, s, order[i]);
      WorkedThen(s.Undisturbed(), false, s.Latched(), hit, old(s.steps), middle, s.steps,
                 ProbesWork(r, req, order, i), ProbeWork(r, req, order[i]));
      if s.Latched() || hit {
        PartOfProbesWork(r, req, order, i + 1);
        WorkedPart(s.Undisturbed(), false, s.Latched(), hit, old(s.steps), s.steps,
                   ProbesWork(r, req, order, i + 1), ProbesWork(r, req, order, |order|));
        return;
      }
    }
  }

  /** One turn of it: the claimed state itself is passed over. */
  method ProbeOne(r: Registry, req: Request, s: Search, other: string) returns (hit: bool)
    requires req.key.Certs? && s.Budget() && !s.Latched()
    modifies s
    ensures s.Budget()
    ensures !s.Latched() ==> hit == (other != r.normalize(req.subjectId) && ChainsTo(r, req, other))
    ensures Worked(s.Undisturbed(), false, s.Latched(), hit, old(s.steps), s.steps, ProbeWork(r, req, other))
  {
    hide Chains, ChainsTo, NameHit, Search.Budget, Worked, WalkWork;
    if other == r.normalize(req.subjectId) {
      BudgetLeft(s);
      WorkedNothing(s.Undisturbed(), s.steps);
      return false;
    }
    var probe := BuildPaths(s, req.key.dsc, PoolFor(r, req, other), AnyChain);
    ProbeMeaning(r, req, other, probe.tried, probe.done, probe.found, probe.first, probe.accepted);
    return probe.found;
  }

  /** A probe accepts the first chain it meets, so it is done exactly when it found one. */
  lemma ProbeMeaning(r: Registry, req: Request, other: string, tried: seq<Path>, done: bool, found: bool,
                     first: Option<Code>, accepted: Option<Path>)
    requires req.key.Certs? && LogOf(AnyChain, tried, done, found, first, accepted)
    requires tried <= Chains(PoolFor(r, req, other), [req.key.dsc])
    ensures found == done
    ensures found ==> ChainsTo(r, req, other)
    ensures tried == Chains(PoolFor(r, req, other), [req.key.dsc]) && !found ==> !ChainsTo(r, req, other)
  {
    hide Chains, ChainsTo;
    ChainsToMeaning(r, req, other);
  }

  ghost predicate Undisturbed(ctxDone: nat -> bool) {
    forall n :: !ctxDone(n)
  }

  /** What an answer promises, for a request that passes the checks before the search: the budget either covers the work, and
      then the answer is the exhaustive one, or it does not, and then the search says that it was stopped. */
  ghost predicate Answers(resp: Response, undisturbed: bool, trusted: bool, work: Work, checks: int) {
    var stopped := resp.Deny? && resp.stopped;
    // no truncated search passes for an exhaustive one
    && (!stopped ==> Fits(2000, work) && (resp.Allow? <==> trusted) && checks == work.cost)
    // a search is stopped only when the budget does not cover the work, or the context is done
    && (undisturbed && Fits(2000, work) ==> !stopped)
    && (stopped ==> resp.code == ChainInvalid)
    // one budget for the claimed state and every probe, spent on nothing else
    && checks <= 2000 && checks <= work.cost
  }

  /** An evaluation that ends with the search of the claimed state's anchors: allowed, stopped, or denied as its first chain. */
  lemma AnswersFromClaimed(resp: Response, undisturbed: bool, latched: bool, done: bool, trusted: bool,
                           claimed: Work, work: Work, left: nat)
    requires Worked(undisturbed, false, latched, done, MAX_SEARCH_STEPS, left, claimed)
    requires PartOf(claimed, work) && (latched || work == claimed)
    requires done ==> trusted && resp.Allow?
    requires !done && latched ==> resp == Deny(ChainInvalid, true)
    requires !done && !latched ==> !trusted && resp.Deny? && !resp.stopped
    ensures Answers(resp, undisturbed, trusted, work, MAX_SEARCH_STEPS - left)
  {
  }

  /** An evaluation that goes on to the other states. */
  lemma AnswersFromAll(resp: Response, undisturbed: bool, latched: bool, hit: bool,
                       claimed: Work, probes: Work, middle: nat, left: nat)
    requires Worked(undisturbed, false, false, false, MAX_SEARCH_STEPS, middle, claimed)
    requires Worked(undisturbed, false, latched, hit, middle, left, probes)
    requires latched ==> resp == Deny(ChainInvalid, true)
    requires !latched ==> resp.Deny? && !resp.stopped
    ensures Answers(resp, undisturbed, false, Then(claimed, probes), MAX_SEARCH_STEPS - left)
  {
    WorkedThen(undisturbed, false, latched, hit, MAX_SEARCH_STEPS, middle, left, claimed, probes);
  }

  lemma ClaimedIsPart(r: Registry, req: Request, order: seq<string>)
    requires PreCheck(r, req).None?
    ensures PartOf(ClaimedWork(r, req), SearchWork(r, req, order))
  {
    hide ClaimedWork, ProbesWork, ChainsTo;
  }

  lemma TrustedChains(r: Registry, req: Request)
    requires PreCheck(r, req).None? && Trusted(r, req)
    ensures ChainsTo(r, req, r.normalize(req.subjectId))
  {
    hide IsChain, Acceptable, PathLenFromContext;
  }

  /** The code when the claimed state's anchors complete no chain. */
  lemma ProbedDenial(r: Registry, req: Request, hit: bool, named: bool)
    requires PreCheck(r, req).None? && !ChainsTo(r, req, r.normalize(req.subjectId))
    ensures hit == ChainsElsewhere(r, req) && named == NameMatched(r, req) ==>
              DenialFits(r, req, if hit then CountryMismatch else if named then ChainInvalid else NoAnchor)
  {
    hide ChainsTo, ChainsElsewhere, NameMatched, Chains;
  }

  lemma ChainsToConnects(r: Registry, req: Request, country: string)
    requires req.key.Certs?
    ensures ChainsTo(r, req, country) <==> ConnectsTo(r, req, country)
  {
    hide Connects, LinkPath, Signed;
    if c :| IsChain(PoolFor(r, req, country), c) && c[0] == req.key.dsc { ChainConnects(r, req, country, c); }
    if c :| Connects(r, req, country, c) { ChainConnects(r, req, country, c); }
  }

  lemma NameMatchedMeaning(r: Registry, req: Request)
    requires PreCheck(r, req).None?
    ensures NameMatched(r, req) <==> NamesIssuer(r, req, r.normalize(req.subjectId))
  {
    hide EndsAtName, NamedAt, PathLenFromContext, CountryMatches;
    var country := r.normalize(req.subjectId);
    forall q | LinkPath(PoolFor(r, req, country), q) || EndsAtName(r, req, country, q)
      ensures LinkPath(PoolFor(r, req, country), q) && q[0] == req.key.dsc && NamedAt(PoolFor(r, req, country), q)
         <==> EndsAtName(r, req, country, q) {
      NamedMeaning(r, req, country, q);
    }
  }

  /** Where a chain connects to the claimed state, an exhaustive denial tells why the first one is not accepted. */
  lemma FirstChainDenied(r: Registry, req: Request, code: Code)
    requires PreCheck(r, req).None? && DenialFits(r, req, code) && ConnectsTo(r, req, r.normalize(req.subjectId))
    ensures var country := r.normalize(req.subjectId);
            var all := Chains(PoolFor(r, req, country), [req.key.dsc]);
            all != [] && Connects(r, req, country, all[0]) && |all[0]| >= 2 && Verdict(RulesFor(r, req), all[0]) == Some(code)
  {
    hide Connects, Chains, LinkPath, Signed, PathLenFromContext, CountryMatches, Verdict;
    var country := r.normalize(req.subjectId);
    var all := Chains(PoolFor(r, req, country), [req.key.dsc]);
    ChainsToConnects(r, req, country);
    ChainsAreExactly(PoolFor(r, req, country), req.key.dsc, all[0]);
    ChainConnects(r, req, country, all[0]);
  }

  /** Where none does, it tells whether one connects to another state, or else whether a certificate has the name of an issuer. */
  lemma NoChainDenied(r: Registry, req: Request, code: Code)
    requires PreCheck(r, req).None? && DenialFits(r, req, code) && !ConnectsTo(r, req, r.normalize(req.subjectId))
    ensures code == CountryMismatch <==> ConnectsElsewhere(r, req)
    ensures code == ChainInvalid <==> !ConnectsElsewhere(r, req) && NamesIssuer(r, req, r.normalize(req.subjectId))
    ensures code in {CountryMismatch, ChainInvalid, NoAnchor}
  {
    hide Chains, ChainsTo, ConnectsTo, NameMatched, NamesIssuer, PathLenFromContext, CountryMatches, Verdict;
    forall other ensures ChainsTo(r, req, other) <==> ConnectsTo(r, req, other) { ChainsToConnects(r, req, other); }
    NameMatchedMeaning(r, req);
  }

  lemma BudgetSpent(s: Search)
    requires s.Budget()
    ensures s.checks == MAX_SEARCH_STEPS - s.steps && s.steps >= 0
  {
  }

  method Evaluate(r: Registry, req: Request, ctxDone: nat -> bool, order: seq<string>)
    returns (resp: Response, ghost effort: Effort)
    // the order in which the map of states is walked
    requires r.snap.Some? ==> forall c :: c in order <==> c in r.snap.value.anchors
    requires forall crl :: crl in Crls(r, r.normalize(req.subjectId)) ==> crl.Indexed()
    ensures PreCheck(r, req).Some? ==> resp == Reject(PreCheck(r, req).value)
    // soundness, truncated search or not
    ensures resp.Allow? ==>
              PreCheck(r, req).None? && Sound(r, req, resp.chain)
    // the denials of an exhaustive search have the right code
    ensures PreCheck(r, req).None? && resp.Deny? && !resp.stopped ==> DenialFits(r, req, resp.code)
    // completeness, and what being stopped means
    ensures PreCheck(r, req).None? ==>
              Answers(resp, Undisturbed(ctxDone), Trustworthy(r, req), SearchWork(r, req, order), effort.checks)
    ensures effort.crlChecks <= CrlBudget(r, req)
  {
    hide Sound, Trustworthy, Chains, ChainsTo, Verdict, Acceptable, LinkPath, NamedAt, NameHit, CrlBudget, PathLenFromContext, Answers, Worked,
         Trusted, DenialFits, ChainsElsewhere, ClaimedWork, ProbesWork, Then;
    var country := r.normalize(req.subjectId);
    effort := Effort(0, 0);
    var denied := PreCheck(r, req);
    if denied.Some? {
      return Reject(denied.value), effort;
    }
    TrustedMeaning(r, req);
    var s := new Search(ctxDone);
    BudgetSpent(s);
    var b, vc := SearchClaimed(r, req, s);
    BudgetSpent(s);
    Interpret(r, req, vc, b.tried, b.done, b.found, b.first, b.accepted);
    if b.accepted.Some? { AcceptableMeaning(r, req, b.accepted.value); }
    NameHitMeaning(PoolFor(r, req, country), req.key.dsc);
    effort := Effort(s.checks, vc.checks);
    resp := if b.accepted.Some? then Allow(b.accepted.value)
            else if s.Latched() then Deny(ChainInvalid, true)
            else if b.found then Reject(b.first.value)
            else Reject(NoAnchor);
    if b.accepted.Some? || s.Latched() || b.found {
      if Trusted(r, req) { TrustedChains(r, req); }
      ClaimedIsPart(r, req, order);
      AnswersFromClaimed(resp, Undisturbed(ctxDone), s.Latched(), b.done, Trusted(r, req),
                         ClaimedWork(r, req), SearchWork(r, req, order), s.steps);
      return;
    }
    ghost var middle := s.steps;
    var hit := ProbeOthers(r, req, s, order);
    ProbeHitsMeaning(r, req, order);
    BudgetSpent(s);
    effort := effort.(checks := s.checks);
    resp := if s.Latched() then Deny(ChainInvalid, true)
            else if hit then Reject(CountryMismatch)
            else if b.nameMatched then Reject(ChainInvalid)
            else Reject(NoAnchor);
    ProbedDenial(r, req, hit, b.nameMatched);
    if Trusted(r, req) { TrustedChains(r, req); }
    AnswersFromAll(resp, Undisturbed(ctxDone), s.Latched(), hit,
                   ClaimedWork(r, req), ProbesWork(r, req, order, |order|), middle, s.steps);
  }
}
