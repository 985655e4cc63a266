/** The mutable state of one evaluation and the walk that updates it. */
module EmrtdWalk {
  import opened Options
  import opened EmrtdChain
  import opened EmrtdSearch
  import opened EmrtdCost

  // ---------------------------------------------------------------- work budget and cancellation

  class Search {
    const ctxDone: nat -> bool  // whether the request context is done at the n-th time it is asked
    var polls: nat
    var steps: int
    var exhausted: bool
    var canceled: bool
    ghost var checks: nat       // signature checks spent on building paths

    constructor (ctxDone: nat -> bool)
      ensures this.ctxDone == ctxDone && Budget() && !Latched() && steps == MAX_SEARCH_STEPS
    {
      this.ctxDone := ctxDone;
      polls, steps, exhausted, canceled, checks := 0, MAX_SEARCH_STEPS, false, false, 0;
    }

    /** The context is never done. */
    ghost predicate Undisturbed() {
      forall n :: !ctxDone(n)
    }

    predicate Latched()
      reads this
    {
      exhausted || canceled
    }

    /** The budget pays for every check, and the latches record true reasons. */
    ghost predicate Budget()
      reads this
    {
      && steps >= 0 && checks + steps == MAX_SEARCH_STEPS
      && (exhausted ==> steps == 0)
      && (canceled ==> exists n :: ctxDone(n))
    }

    method Stopped() returns (stop: bool)
      requires Budget()
      modifies this`polls, this`exhausted, this`canceled
      ensures Budget() && stop == Latched()
      ensures old(Latched()) ==> stop && exhausted == old(exhausted) && canceled == old(canceled) && polls == old(polls)
      ensures !stop ==> steps > 0 && !ctxDone(old(polls))
      ensures exhausted && !old(exhausted) ==> steps == 0
      ensures canceled && !old(canceled) ==> ctxDone(old(polls))
    {
      if exhausted || canceled {
        return true;
      }
      polls := polls + 1;
      if ctxDone(polls - 1) {
        canceled := true;
        return true;
      }
      if steps <= 0 {
        exhausted := true;
        return true;
      }
      return false;
    }

    /** issuedBy, charged to the work budget. */
    method Check(verify: Verifier, child: Cert, parent: Cert) returns (signed: bool, named: bool)
      requires Budget() && steps > 0
      modifies this`steps, this`checks
      ensures Budget() && steps == old(steps) - 1
      ensures signed == Signed(verify, child, parent) && named == Named(child, parent)
    {
      steps := steps - 1;
      checks := checks + 1;
      if !NamesEqual(child.issuer, parent.subject) {
        return false, false;
      }
      if WeakSigAlg(child.alg) {
        return false, true;
      }
      return verify(parent.raw, child.alg, child.tbs, child.signature), true;
    }
  }

  // ---------------------------------------------------------------- the CRL signature memo

  /** One CRL/issuer-certificate pair; the issuer is its DER. */
  datatype CrlKey = CrlKey(crl: CrlData, issuer: Bytes)

  ghost function Raws(certs: seq<Cert>): set<Bytes> {
    set c | c in certs :: c.raw
  }

  class CrlVerdicts {
    var verdicts: map<CrlKey, bool>
    ghost var checks: nat  // signature checks spent on CRLs

    constructor ()
      ensures verdicts == map[] && checks == 0
    {
      verdicts, checks := map[], 0;
    }

    /** The memo holds true verdicts, of these CRLs against these issuers only, each paid for once. */
    ghost predicate Memory(rules: Rules, issuers: set<Bytes>)
      reads this
    {
      && checks == |verdicts|
      && forall k :: k in verdicts ==>
           && verdicts[k] == SignedBy(rules.verify, k.crl, k.issuer)
           && k.crl in rules.crls && k.issuer in issuers
    }

    method SignatureOk(rules: Rules, crl: CrlData, issuer: Cert, ghost issuers: set<Bytes>) returns (ok: bool)
      requires Memory(rules, issuers) && crl in rules.crls && issuer.raw in issuers
      modifies this
      ensures Memory(rules, issuers) && ok == SignedBy(rules.verify, crl, issuer.raw)
    {
      var k := CrlKey(crl, issuer.raw);
      if k in verdicts {
        return verdicts[k];
      }
      ok := rules.verify(issuer.raw, crl.list.alg, crl.list.tbs, crl.list.signature);
      assert ok == SignedBy(rules.verify, crl, issuer.raw);
      hide SignedBy;
      checks := checks + 1;
      verdicts := verdicts[k := ok];
    }

    method CrlAuthentic(rules: Rules, crl: CrlData, pathIssuer: Cert, ghost issuers: set<Bytes>) returns (ok: bool)
      requires Memory(rules, issuers) && crl in rules.crls
      requires pathIssuer.raw in issuers && Raws(rules.anchors) <= issuers
      modifies this
      ensures Memory(rules, issuers) && ok == Authentic(rules, crl, pathIssuer)
    {
      hide SignedBy, NamesEqual, Memory;
      ok := SignatureOk(rules, crl, pathIssuer, issuers);
      if ok {
        return true;
      }
      for i := 0 to |rules.anchors|
        invariant Memory(rules, issuers)
        invariant forall k :: 0 <= k < i ==>
                    !(NamesEqual(crl.list.issuer, rules.anchors[k].subject) && SignedBy(rules.verify, crl, rules.anchors[k].raw))
      {
        var a := rules.anchors[i];
        assert a.raw in Raws(rules.anchors);
        if !NamesEqual(crl.list.issuer, a.subject) {
          continue;
        }
        ok := SignatureOk(rules, crl, a, issuers);
        if ok {
          return true;
        }
      }
      return false;
    }

    /** The inner revocation loop of checkPath: the CRLs against one certificate and its issuer on the path. */
    method AnyCrlRevokes(rules: Rules, cert: Cert, issuer: Cert, ghost issuers: set<Bytes>) returns (revoked: bool)
      requires Memory(rules, issuers) && issuer.raw in issuers && Raws(rules.anchors) <= issuers
      requires forall crl :: crl in rules.crls ==> crl.Indexed()
      modifies this
      ensures Memory(rules, issuers)
      ensures revoked <==> exists crl :: crl in rules.crls && Revokes(rules, crl, cert, issuer)
    {
      for j := 0 to |rules.crls|
        invariant Memory(rules, issuers)
        invariant forall k :: 0 <= k < j ==> !Revokes(rules, rules.crls[k], cert, issuer)
      {
        var crl := rules.crls[j];
        if !NamesEqual(crl.list.issuer, cert.issuer) || WeakSigAlg(crl.list.alg) {
          continue;
        }
        var authentic := CrlAuthentic(rules, crl, issuer, issuers);
        if authentic && crl.IsRevoked(cert.serial) {
          return true;
        }
      }
      return false;
    }

    /** The outer revocation loop of checkPath. */
    method AnyRevoked(rules: Rules, path: Path, ghost issuers: set<Bytes>) returns (revoked: bool)
      requires Memory(rules, issuers) && |path| >= 2 && Raws(rules.anchors) <= issuers
      requires forall crl :: crl in rules.crls ==> crl.Indexed()
      requires forall i :: 1 <= i < |path| ==> path[i].raw in issuers
      modifies this
      ensures Memory(rules, issuers)
      ensures revoked <==> RevokedBefore(rules, path, |path| - 1)
    {
      for i := 0 to |path| - 1
        invariant Memory(rules, issuers) && !RevokedBefore(rules, path, i)
      {
        revoked := AnyCrlRevokes(rules, path[i], path[i + 1], issuers);
        if revoked {
          RevokedBeforeGrows(rules, path, i + 1, |path| - 1);
          return;
        }
      }
      return false;
    }

    method CheckPath(rules: Rules, path: Path, ghost issuers: set<Bytes>) returns (denied: Option<Code>)
      requires Memory(rules, issuers) && |path| >= 2 && Raws(rules.anchors) <= issuers
      requires forall crl :: crl in rules.crls ==> crl.Indexed()
      requires forall i :: 1 <= i < |path| ==> path[i].raw in issuers
      modifies this
      ensures Memory(rules, issuers) && denied == Verdict(rules, path)
    {
      denied := CheckPathLen(path, rules.pl);
      if denied.Some? {
        return;
      }
      for i := 0 to |path|
        invariant Memory(rules, issuers)
        invariant TimeVerdict(path, rules.at) == TimeVerdict(path[i..], rules.at)
        invariant denied == None
      {
        if rules.at < path[i].notBefore {
          return Some(NotYetValid);
        }
        if rules.at > path[i].notAfter {
          return Some(Expired);
        }
        assert path[i..][1..] == path[i + 1..];
      }
      if path[0].basicConstraintsValid && path[0].isCA {
        return Some(BadKeyUsage);
      }
      if path[0].hasKeyUsageExt && !path[0].digitalSignature {
        return Some(BadKeyUsage);
      }
      var revoked := AnyRevoked(rules, path, issuers);
      return if revoked then Some(Revoked) else None;
    }
  }

  // ---------------------------------------------------------------- buildPaths

  /** The callback buildPaths tries each chain with: checkPath for the claimed state, anything for the probes. */
  datatype Accept = UnderRules(rules: Rules, vc: CrlVerdicts) | AnyChain

  /** The denial the callback gives a chain; None accepts it and ends the walk. */
  ghost function Outcome(mode: Accept, chain: Path): Option<Code>
    requires |chain| >= 2
  {
    if mode.AnyChain? then None else Verdict(mode.rules, chain)
  }

  ghost function GoalOf(mode: Accept): Goal {
    if mode.AnyChain? then None else Some(mode.rules)
  }

  ghost function Memos(mode: Accept): set<object> {
    if mode.AnyChain? then {} else {mode.vc}
  }

  /** The flags of a walk are exactly what the chains it tried imply. */
  ghost predicate LogOf(mode: Accept, tried: seq<Path>, done: bool, found: bool, first: Option<Code>, accepted: Option<Path>) {
    && (forall i :: 0 <= i < |tried| ==> |tried[i]| >= 2)
    && (forall i :: 0 <= i < |tried| - 1 ==> Outcome(mode, tried[i]).Some?)
    && found == (tried != [])
    && done == (tried != [] && Outcome(mode, tried[|tried| - 1]).None?)
    && (mode.UnderRules? ==>
          && accepted == (if done then Some(tried[|tried| - 1]) else None)
          && first == (if tried == [] then None else Outcome(mode, tried[0])))
  }

  /** One call of buildPaths: the variables its closures share, and those evaluate's callback captures. */
  class PathBuilder {
    const s: Search
    const pool: Pool
    const mode: Accept
    var done: bool
    var found: bool
    var nameMatched: bool
    var first: Option<Code>
    var accepted: Option<Path>
    ghost var tried: seq<Path>  // chains handed to the callback, in order

    constructor (s: Search, pool: Pool, mode: Accept)
      requires mode.UnderRules? ==> mode.rules.verify == pool.verify && mode.rules.anchors == pool.anchors
      ensures this.s == s && this.pool == pool && this.mode == mode
      ensures Log() && tried == [] && !nameMatched
    {
      this.s, this.pool, this.mode := s, pool, mode;
      done, found, nameMatched := false, false, false;
      first, accepted, tried := None, None, [];
    }

    ghost predicate Log()
      reads `done, `found, `first, `accepted, `tried
    {
      LogOf(mode, tried, done, found, first, accepted)
    }

    /** What the callback needs: the rules speak of this pool, and the memo is sound. */
    ghost predicate RulesOk()
      reads Memos(mode)
    {
      mode.UnderRules? ==>
        && mode.rules.verify == pool.verify && mode.rules.anchors == pool.anchors
        && (forall crl :: crl in mode.rules.crls ==> crl.Indexed())
        && mode.vc.Memory(mode.rules, Raws(pool.anchors + pool.extras))
    }

    /** The callback, and what it captures. */
    method Try(chain: Path)
      requires Log() && RulesOk() && !done
      requires |chain| >= 2 && forall i :: 1 <= i < |chain| ==> chain[i] in pool.anchors + pool.extras
      modifies this`done, this`found, this`first, this`accepted, this`tried, Memos(mode)
      ensures Log() && RulesOk() && tried == old(tried) + [chain] && done == Suits(GoalOf(mode), chain)
    {
      var denied: Option<Code> := None;
      if mode.UnderRules? {
        denied := mode.vc.CheckPath(mode.rules, chain, Raws(pool.anchors + pool.extras));
      }
      Record(chain, denied);
    }

    method Record(chain: Path, denied: Option<Code>)
      requires Log() && !done && |chain| >= 2 && denied == Outcome(mode, chain)
      modifies this`done, this`found, this`first, this`accepted, this`tried
      ensures Log() && tried == old(tried) + [chain] && done == Suits(GoalOf(mode), chain)
    {
      found := true;
      tried := tried + [chain];
      if mode.UnderRules? {
        if denied.Some? {
          if first.None? {
            first := denied;
          }
        } else {
          accepted := Some(chain);
        }
      }
      done := denied.None?;
    }

    /** One turn of the anchors loop of walk. */
    method TryAnchor(path: Path, a: Cert)
      requires s.Budget() && Log() && RulesOk() && !done
      requires 1 <= |path| < MAX_CHAIN_LEN && LinkPath(pool, path) && a in pool.anchors
      modifies this, s, Memos(mode)
      ensures s.Budget() && Log() && RulesOk()
      ensures !s.Latched() ==> tried == old(tried) + AnchorTurn(pool, path, a)
      ensures s.Latched() ==> !done && tried == old(tried)
      ensures !s.Latched() ==> nameMatched == (old(nameMatched) || (!InPath(path, a) && Named(path[|path| - 1], a)))
      ensures Worked(s.Undisturbed(), old(s.Latched()), s.Latched(), done, old(s.steps), s.steps, AnchorTurnWork(GoalOf(mode), pool, path, a))
    {
      hide LogOf, RulesOk, Search.Budget;
      var stop := s.Stopped();
      if stop || InPath(path, a) {
        return;
      }
      var signed, named := s.Check(pool.verify, path[|path| - 1], a);
      nameMatched := nameMatched || named;
      if signed {
        Try(path + [a]);
      }
    }

    /** The anchors loop of walk. It tries AnchorChains in order and leaves a rest only if stopped or done. */
    method WalkAnchors(path: Path) returns (ghost rest: seq<Path>)
      requires s.Budget() && Log() && RulesOk() && !done && !s.Latched()
      requires 1 <= |path| < MAX_CHAIN_LEN && LinkPath(pool, path)
      modifies this, s, Memos(mode)
      ensures s.Budget() && Log() && RulesOk()
      ensures tried + rest == old(tried) + AnchorChains(pool, path, |pool.anchors|)
      ensures !done && !s.Latched() ==>
                rest == [] && nameMatched == (old(nameMatched) || AnchorNamed(pool, path, |pool.anchors|))
      ensures Worked(s.Undisturbed(), false, s.Latched(), done, old(s.steps), s.steps, AnchorWork(GoalOf(mode), pool, path, |pool.anchors|))
    {
      hide LogOf, RulesOk, Search.Budget, Worked, AnchorTurnWork, AnchorTurn, LinkPath, Named, InPath, Then;
      ghost var before := tried;
      BudgetLeft(s);
      WorkedNothing(s.Undisturbed(), s.steps);
      for i := 0 to |pool.anchors|
        invariant s.Budget() && Log() && RulesOk() && !done && !s.Latched()
        invariant tried == before + AnchorChains(pool, path, i)
        invariant nameMatched == (old(nameMatched) || AnchorNamed(pool, path, i))
        invariant Worked(s.Undisturbed(), false, false, false, old(s.steps), s.steps, AnchorWork(GoalOf(mode), pool, path, i))
      {
        ghost var middle := s.steps;
        BudgetLeft(s);
        TryAnchor(path, pool.anchors[i]);
        WorkedThen(s.Undisturbed(), false, s.Latched(), done, old(s.steps), middle, s.steps,
                   AnchorWork(GoalOf(mode), pool, path, i), AnchorTurnWork(GoalOf(mode), pool, path, pool.anchors[i]));
        if done || s.Latched() {
          PartOfAnchorWork(GoalOf(mode), pool, path, i + 1);
          WorkedPart(s.Undisturbed(), false, s.Latched(), done, old(s.steps), s.steps,
                     AnchorWork(GoalOf(mode), pool, path, i + 1), AnchorWork(GoalOf(mode), pool, path, |pool.anchors|));
        }
        if s.Latched() {
          rest := AnchorChainsLeft(pool, path, i, before);
          return;
        }
        AnchorChainsNext(pool, path, i, before);
        if done {
          rest := AnchorChainsLeft(pool, path, i + 1, before);
          return;
        }
      }
      rest := [];
    }

    /** One turn of the extras loop of walk, up to the recursive call; ok tells whether to make it. */
    method TryLink(path: Path, e: Cert) returns (ok: bool)
      requires s.Budget() && 1 <= |path| < MAX_CHAIN_LEN - 1
      modifies this`nameMatched, s
      ensures s.Budget()
      ensures s.Latched() ==> !ok
      ensures !s.Latched() ==>
                && ok == LinkStep(pool, path, e)
                && nameMatched == (old(nameMatched) || BadLink(pool, path, e))
      ensures Worked(s.Undisturbed(), old(s.Latched()), s.Latched(), false, old(s.steps), s.steps, PollWork(pool, path, e))
    {
      var stop := s.Stopped();
      if stop || InPath(path, e) || IsAnchor(pool, e) {
        return false;
      }
      var signed, named := s.Check(pool.verify, path[|path| - 1], e);
      if !signed {
        nameMatched := nameMatched || named;
        return false;
      }
      if !CanIssue(e) {
        nameMatched := true;
        return false;
      }
      return true;
    }

    /** One turn of the extras loop of walk. */
    method WalkLink(path: Path, e: Cert) returns (ghost rest: seq<Path>)
      requires s.Budget() && Log() && RulesOk() && !done && !s.Latched()
      requires 1 <= |path| < MAX_CHAIN_LEN - 1 && LinkPath(pool, path) && e in pool.extras
      modifies this, s, Memos(mode)
      decreases MAX_CHAIN_LEN - |path|, 0
      ensures s.Budget() && Log() && RulesOk()
      ensures tried + rest == old(tried) + LinkTurn(pool, path, e)
      ensures !done && !s.Latched() ==>
                && rest == []
                && nameMatched == (old(nameMatched) || BadLink(pool, path, e)
                                   || (LinkStep(pool, path, e) && NameHit(pool, path + [e])))
      ensures Worked(s.Undisturbed(), false, s.Latched(), done, old(s.steps), s.steps, LinkTurnWork(GoalOf(mode), pool, path, e))
    {
      hide LogOf, RulesOk, Search.Budget, Worked, PollWork, WalkWork, Then;
      var ok := TryLink(path, e);
      ghost var middle := s.steps;
      BudgetLeft(s);
      if ok {
        ExtendLinkPath(pool, path, e);
        rest := Walk(path + [e]);
        WorkedThen(s.Undisturbed(), false, s.Latched(), done, old(s.steps), middle, s.steps,
                   PollWork(pool, path, e), OnwardWork(GoalOf(mode), pool, path, e));
      } else {
        rest := LinkTurn(pool, path, e);
        WorkedFirst(s.Undisturbed(), s.Latched(), done, old(s.steps), s.steps, PollWork(pool, path, e), OnwardWork(GoalOf(mode), pool, path, e));
      }
    }

    /** The extras loop of walk. It tries LinkChains in order and leaves a rest only if stopped or done. */
    method WalkLinks(path: Path) returns (ghost rest: seq<Path>)
      requires s.Budget() && Log() && RulesOk() && !done && !s.Latched()
      requires 1 <= |path| < MAX_CHAIN_LEN - 1 && LinkPath(pool, path)
      modifies this, s, Memos(mode)
      decreases MAX_CHAIN_LEN - |path|, 1
      ensures s.Budget() && Log() && RulesOk()
      ensures tried + rest == old(tried) + LinkChains(pool, path, |pool.extras|)
      ensures !done && !s.Latched() ==>
                rest == [] && nameMatched == (old(nameMatched) || LinkNamed(pool, path, |pool.extras|))
      ensures Worked(s.Undisturbed(), false, s.Latched(), done, old(s.steps), s.steps, LinkWork(GoalOf(mode), pool, path, |pool.extras|))
    {
      hide LogOf, RulesOk, Search.Budget, Worked, LinkTurnWork, LinkTurn, LinkPath, LinkStep, BadLink, NameHit, WalkWork, Then;
      ghost var before := tried;
      BudgetLeft(s);
      WorkedNothing(s.Undisturbed(), s.steps);
      for j := 0 to |pool.extras|
        invariant s.Budget() && Log() && RulesOk() && !done && !s.Latched()
        invariant tried == before + LinkChains(pool, path, j)
        invariant nameMatched == (old(nameMatched) || LinkNamed(pool, path, j))
        invariant Worked(s.Undisturbed(), false, false, false, old(s.steps), s.steps, LinkWork(GoalOf(mode), pool, path, j))
      {
        ghost var middle := s.steps;
        BudgetLeft(s);
        ghost var turn := WalkLink(path, pool.extras[j]);
        WorkedThen(s.Undisturbed(), false, s.Latched(), done, old(s.steps), middle, s.steps,
                   LinkWork(GoalOf(mode), pool, path, j), LinkTurnWork(GoalOf(mode), pool, path, pool.extras[j]));
        LinkChainsNext(pool, path, j, before);
        if done || s.Latched() {
          PartOfLinkWork(GoalOf(mode), pool, path, j + 1);
          WorkedPart(s.Undisturbed(), false, s.Latched(), done, old(s.steps), s.steps,
                     LinkWork(GoalOf(mode), pool, path, j + 1), LinkWork(GoalOf(mode), pool, path, |pool.extras|));
          ghost var left := LinkChainsLeft(pool, path, j + 1, before);
          Regroup(tried, turn, left);
          rest := turn + left;
          return;
        }
      }
      rest := [];
    }

    /** The walk from one link path. It tries Chains in order and leaves a rest only if stopped or done. */
    method Walk(path: Path) returns (ghost rest: seq<Path>)
      requires s.Budget() && Log() && RulesOk() && !done && !s.Latched()
      requires 1 <= |path| < MAX_CHAIN_LEN && LinkPath(pool, path)
      modifies this, s, Memos(mode)
      decreases MAX_CHAIN_LEN - |path|, 2
      ensures s.Budget() && Log() && RulesOk()
      ensures tried + rest == old(tried) + Chains(pool, path)
      ensures !done && !s.Latched() ==>
                rest == [] && nameMatched == (old(nameMatched) || NameHit(pool, path))
      ensures Worked(s.Undisturbed(), false, s.Latched(), done, old(s.steps), s.steps, WalkWork(GoalOf(mode), pool, path))
    {
      hide LogOf, RulesOk, Search.Budget, Worked, AnchorWork, LinkWork, Then;
      ghost var links := if |path| >= MAX_CHAIN_LEN - 1 then [] else LinkChains(pool, path, |pool.extras|);
      ghost var linkWork := if |path| >= MAX_CHAIN_LEN - 1 then NO_WORK else LinkWork(GoalOf(mode), pool, path, |pool.extras|);
      Regroup(tried, AnchorChains(pool, path, |pool.anchors|), links);
      rest := WalkAnchors(path);
      ghost var middle := s.steps;
      BudgetLeft(s);
      if done || s.Latched() || |path| >= MAX_CHAIN_LEN - 1 {
        Regroup(tried, rest, links);
        rest := rest + links;
        WorkedFirst(s.Undisturbed(), s.Latched(), done, old(s.steps), s.steps, AnchorWork(GoalOf(mode), pool, path, |pool.anchors|), linkWork);
        return;
      }
      assert tried + rest == tried;
      rest := WalkLinks(path);
      WorkedThen(s.Undisturbed(), false, s.Latched(), done, old(s.steps), middle, s.steps,
                 AnchorWork(GoalOf(mode), pool, path, |pool.anchors|), linkWork);
    }
  }

  lemma BudgetLeft(s: Search)
    requires s.Budget()
    ensures s.steps >= 0
  {
  }

  /** buildPaths: a complete walk has tried every chain; a truncated one has latched why. */
  method BuildPaths(s: Search, dsc: Cert, pool: Pool, mode: Accept) returns (b: PathBuilder)
    requires s.Budget() && !s.Latched()
    requires mode.UnderRules? ==>
      && mode.rules.verify == pool.verify && mode.rules.anchors == pool.anchors
      && (forall crl :: crl in mode.rules.crls ==> crl.Indexed())
      && mode.vc.Memory(mode.rules, Raws(pool.anchors + pool.extras))
    modifies s, Memos(mode)
    ensures fresh(b) && b.mode == mode && b.pool == pool && b.s == s
    ensures s.Budget() && b.RulesOk()
    ensures LogOf(mode, b.tried, b.done, b.found, b.first, b.accepted)
    ensures b.tried <= Chains(pool, [dsc])
    ensures !b.done && !s.Latched() ==> b.tried == Chains(pool, [dsc]) && b.nameMatched == NameHit(pool, [dsc])
    ensures Worked(s.Undisturbed(), false, s.Latched(), b.done, old(s.steps), s.steps, WalkWork(GoalOf(mode), pool, [dsc]))
  {
    hide WalkWork, Worked;
    b := new PathBuilder(s, pool, mode);
    ghost var rest := b.Walk([dsc]);
    assert b.tried <= b.tried + rest;
  }
}
