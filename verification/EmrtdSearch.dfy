/** The budgeted depth-first search for a certificate path, and the evaluation built on it. */
module EmrtdSearch {
  import opened EmrtdChain

  const MAX_CHAIN_LEN: nat := 5
  const MAX_SEARCH_STEPS: nat := 2000

  type Path = seq<Cert>

  /** What one walk draws certificates from: untrusted extras and one state's anchors. */
  datatype Pool = Pool(verify: Verifier, extras: seq<Cert>, anchors: seq<Cert>)

  // ---------------------------------------------------------------- what a chain is

  predicate InPath(path: Path, c: Cert) {
    exists i :: 0 <= i < |path| && path[i].raw == c.raw
  }

  predicate IsAnchor(pool: Pool, c: Cert) {
    exists i :: 0 <= i < |pool.anchors| && pool.anchors[i].raw == c.raw
  }

  ghost predicate Distinct(path: Path) {
    forall i, j :: 0 <= i < j < |path| ==> path[i].raw != path[j].raw
  }

  /** A document signer followed by distinct, signed, CA-capable links that are not anchors. */
  ghost predicate LinkPath(pool: Pool, path: Path) {
    && path != []
    && Distinct(path)
    && forall i :: 1 <= i < |path| ==>
         path[i] in pool.extras && !IsAnchor(pool, path[i]) && CanIssue(path[i]) && Signed(pool.verify, path[i - 1], path[i])
  }

  /** A signed chain of at most five distinct certificates from a document signer through links to an anchor. */
  ghost predicate IsChain(pool: Pool, chain: Path) {
    && 2 <= |chain| <= MAX_CHAIN_LEN
    && LinkPath(pool, chain[..|chain| - 1])
    && Distinct(chain)
    && chain[|chain| - 1] in pool.anchors
    && Signed(pool.verify, chain[|chain| - 2], chain[|chain| - 1])
  }

  // ---------------------------------------------------------------- the order of the search

  predicate AnchorStep(pool: Pool, path: Path, a: Cert)
    requires path != []
  {
    !InPath(path, a) && Signed(pool.verify, path[|path| - 1], a)
  }

  predicate LinkStep(pool: Pool, path: Path, e: Cert)
    requires path != []
  {
    !InPath(path, e) && !IsAnchor(pool, e) && Signed(pool.verify, path[|path| - 1], e) && CanIssue(e)
  }

  function AnchorTurn(pool: Pool, path: Path, a: Cert): seq<Path>
    requires path != []
  {
    if AnchorStep(pool, path, a) then [path + [a]] else []
  }

  function LinkTurn(pool: Pool, path: Path, e: Cert): seq<Path>
    requires 1 <= |path| < MAX_CHAIN_LEN - 1
    decreases MAX_CHAIN_LEN - |path|, 0, 0
  {
    if LinkStep(pool, path, e) then Chains(pool, path + [e]) else []
  }

  /** The chains found by trying the first n anchors at the end of the path. */
  function AnchorChains(pool: Pool, path: Path, n: nat): seq<Path>
    requires path != [] && n <= |pool.anchors|
  {
    if n == 0 then []
    else AnchorChains(pool, path, n - 1)
         + AnchorTurn(pool, path, pool.anchors[n - 1])
  }

  /** The chains found by walking on from the path through each of the first n extras. */
  function LinkChains(pool: Pool, path: Path, n: nat): seq<Path>
    requires 1 <= |path| < MAX_CHAIN_LEN - 1 && n <= |pool.extras|
    decreases MAX_CHAIN_LEN - |path|, 1, n
  {
    if n == 0 then []
    else LinkChains(pool, path, n - 1)
         + LinkTurn(pool, path, pool.extras[n - 1])
  }

  /** Every chain that extends the path, in the order a complete search meets them. */
  function Chains(pool: Pool, path: Path): seq<Path>
    requires 1 <= |path| < MAX_CHAIN_LEN
    decreases MAX_CHAIN_LEN - |path|, 2, 0
  {
    AnchorChains(pool, path, |pool.anchors|)
    + if |path| >= MAX_CHAIN_LEN - 1 then [] else LinkChains(pool, path, |pool.extras|)
  }

  lemma AnchorChainsNext(pool: Pool, path: Path, n: nat, before: seq<Path>)
    requires path != [] && n < |pool.anchors|
    ensures before + AnchorChains(pool, path, n + 1) == before + AnchorChains(pool, path, n) + AnchorTurn(pool, path, pool.anchors[n])
  {
  }

  lemma LinkChainsNext(pool: Pool, path: Path, n: nat, before: seq<Path>)
    requires 1 <= |path| < MAX_CHAIN_LEN - 1 && n < |pool.extras|
    ensures before + LinkChains(pool, path, n + 1) == before + LinkChains(pool, path, n) + LinkTurn(pool, path, pool.extras[n])
  {
  }

  /** What a walk stopped after the first n anchors has left undone. */
  lemma AnchorChainsLeft(pool: Pool, path: Path, n: nat, before: seq<Path>) returns (rest: seq<Path>)
    requires path != [] && n <= |pool.anchors|
    ensures before + AnchorChains(pool, path, n) + rest == before + AnchorChains(pool, path, |pool.anchors|)
    decreases |pool.anchors| - n
  {
    if n == |pool.anchors| {
      rest := [];
    } else {
      rest := AnchorChainsLeft(pool, path, n + 1, before);
      AnchorChainsNext(pool, path, n, before);
      Regroup(before + AnchorChains(pool, path, n), AnchorTurn(pool, path, pool.anchors[n]), rest);
      rest := AnchorTurn(pool, path, pool.anchors[n]) + rest;
    }
  }

  /** What a walk stopped after the first n extras has left undone. */
  lemma LinkChainsLeft(pool: Pool, path: Path, n: nat, before: seq<Path>) returns (rest: seq<Path>)
    requires 1 <= |path| < MAX_CHAIN_LEN - 1 && n <= |pool.extras|
    ensures before + LinkChains(pool, path, n) + rest == before + LinkChains(pool, path, |pool.extras|)
    decreases |pool.extras| - n
  {
    if n == |pool.extras| {
      rest := [];
    } else {
      rest := LinkChainsLeft(pool, path, n + 1, before);
      LinkChainsNext(pool, path, n, before);
      Regroup(before + LinkChains(pool, path, n), LinkTurn(pool, path, pool.extras[n]), rest);
      rest := LinkTurn(pool, path, pool.extras[n]) + rest;
    }
  }

  lemma Regroup(a: seq<Path>, b: seq<Path>, c: seq<Path>)
    ensures a + b + c == a + (b + c)
  {
  }

  lemma {:induction false} InAnchorChains(pool: Pool, path: Path, n: nat, c: Path)
    requires path != [] && n <= |pool.anchors|
    ensures c in AnchorChains(pool, path, n) <==>
            exists i :: 0 <= i < n && AnchorStep(pool, path, pool.anchors[i]) && c == path + [pool.anchors[i]]
  {
    if n > 0 {
      InAnchorChains(pool, path, n - 1, c);
    }
  }

  lemma {:induction false} InLinkChains(pool: Pool, path: Path, n: nat, c: Path)
    requires 1 <= |path| < MAX_CHAIN_LEN - 1 && n <= |pool.extras|
    ensures c in LinkChains(pool, path, n) <==>
            exists j :: 0 <= j < n && LinkStep(pool, path, pool.extras[j]) && c in Chains(pool, path + [pool.extras[j]])
  {
    hide LinkStep, Chains, AnchorChains;
    if n > 0 {
      InLinkChains(pool, path, n - 1, c);
    }
  }

  lemma ExtendLinkPath(pool: Pool, path: Path, e: Cert)
    requires LinkPath(pool, path) && e in pool.extras && LinkStep(pool, path, e)
    ensures LinkPath(pool, path + [e])
  {
    var longer := path + [e];
    forall i | 1 <= i < |longer|
      ensures longer[i] in pool.extras && !IsAnchor(pool, longer[i]) && CanIssue(longer[i])
              && Signed(pool.verify, longer[i - 1], longer[i])
    {
      if i < |path| {
        assert longer[i] == path[i] && longer[i - 1] == path[i - 1];
      }
    }
  }

  lemma LinkPathStep(pool: Pool, path: Path, k: nat)
    requires LinkPath(pool, path) && 1 <= k < |path|
    ensures LinkStep(pool, path[..k], path[k]) && path[k] in pool.extras
  {
  }

  lemma AnchoredIsChain(pool: Pool, path: Path, a: Cert)
    requires 1 <= |path| < MAX_CHAIN_LEN && LinkPath(pool, path)
    requires a in pool.anchors && AnchorStep(pool, path, a)
    ensures IsChain(pool, path + [a])
  {
    assert (path + [a])[..|path|] == path;
  }

  lemma {:induction false} ChainsSound(pool: Pool, path: Path, c: Path)
    requires 1 <= |path| < MAX_CHAIN_LEN && LinkPath(pool, path)
    requires c in Chains(pool, path)
    ensures IsChain(pool, c) && path < c
    decreases MAX_CHAIN_LEN - |path|
  {
    hide AnchorStep, LinkStep, LinkPath;
    InAnchorChains(pool, path, |pool.anchors|, c);
    if c in AnchorChains(pool, path, |pool.anchors|) {
      var i :| 0 <= i < |pool.anchors| && AnchorStep(pool, path, pool.anchors[i]) && c == path + [pool.anchors[i]];
      AnchoredIsChain(pool, path, pool.anchors[i]);
    } else {
      InLinkChains(pool, path, |pool.extras|, c);
      var j :| 0 <= j < |pool.extras| && LinkStep(pool, path, pool.extras[j]) && c in Chains(pool, path + [pool.extras[j]]);
      ExtendLinkPath(pool, path, pool.extras[j]);
      ChainsSound(pool, path + [pool.extras[j]], c);
    }
  }

  lemma {:induction false} ChainsComplete(pool: Pool, path: Path, c: Path)
    requires 1 <= |path| < MAX_CHAIN_LEN
    requires IsChain(pool, c) && path < c
    ensures c in Chains(pool, path)
    decreases MAX_CHAIN_LEN - |path|
  {
    var n := |path|;
    assert c[..n] == path;
    if n == |c| - 1 {
      InAnchorChains(pool, path, |pool.anchors|, c);
      assert c == path + [c[n]];
      assert AnchorStep(pool, path, c[n]);
    } else {
      LinkPathStep(pool, c[..|c| - 1], n);
      assert c[..|c| - 1][..n] == path;
      assert path + [c[n]] == c[..n + 1];
      ChainsComplete(pool, path + [c[n]], c);
      InLinkChains(pool, path, |pool.extras|, c);
    }
  }

  /** The enumeration order loses and invents nothing: it lists exactly the chains that start at the document signer. */
  lemma ChainsAreExactly(pool: Pool, dsc: Cert, c: Path)
    ensures c in Chains(pool, [dsc]) <==> IsChain(pool, c) && c[0] == dsc
  {
    if c in Chains(pool, [dsc]) {
      ChainsSound(pool, [dsc], c);
    }
    if IsChain(pool, c) && c[0] == dsc {
      assert [dsc] < c;
      ChainsComplete(pool, [dsc], c);
    }
  }

  // ---------------------------------------------------------------- name matches

  /** A name match among the first n anchors. */
  predicate AnchorNamed(pool: Pool, path: Path, n: nat)
    requires path != [] && n <= |pool.anchors|
  {
    n > 0 && (AnchorNamed(pool, path, n - 1)
              || (!InPath(path, pool.anchors[n - 1]) && Named(path[|path| - 1], pool.anchors[n - 1])))
  }

  /** An extra with the issuer's name that cannot be a link: it did not sign, or it signed and may not act as a CA. */
  predicate BadLink(pool: Pool, path: Path, e: Cert)
    requires path != []
  {
    && !InPath(path, e) && !IsAnchor(pool, e)
    && Named(path[|path| - 1], e)
    && (Signed(pool.verify, path[|path| - 1], e) ==> !CanIssue(e))
  }

  /** A name match met while walking the first n extras from the path. */
  predicate LinkNamed(pool: Pool, path: Path, n: nat)
    requires 1 <= |path| < MAX_CHAIN_LEN - 1 && n <= |pool.extras|
    decreases MAX_CHAIN_LEN - |path|, 0, n
  {
    n > 0 && (LinkNamed(pool, path, n - 1)
              || BadLink(pool, path, pool.extras[n - 1])
              || (LinkStep(pool, path, pool.extras[n - 1]) && NameHit(pool, path + [pool.extras[n - 1]])))
  }

  predicate NameHit(pool: Pool, path: Path)
    requires 1 <= |path| < MAX_CHAIN_LEN
    decreases MAX_CHAIN_LEN - |path|, 1
  {
    || AnchorNamed(pool, path, |pool.anchors|)
    || (|path| < MAX_CHAIN_LEN - 1 && LinkNamed(pool, path, |pool.extras|))
  }

  lemma {:induction false} AnchorNamedMeaning(pool: Pool, path: Path, n: nat)
    requires path != [] && n <= |pool.anchors|
    ensures AnchorNamed(pool, path, n) <==>
            exists i :: 0 <= i < n && !InPath(path, pool.anchors[i]) && Named(path[|path| - 1], pool.anchors[i])
  {
    if n > 0 {
      AnchorNamedMeaning(pool, path, n - 1);
    }
  }

  lemma {:induction false} LinkNamedMeaning(pool: Pool, path: Path, n: nat)
    requires 1 <= |path| < MAX_CHAIN_LEN - 1 && n <= |pool.extras|
    ensures LinkNamed(pool, path, n) <==>
            exists j :: 0 <= j < n &&
              (BadLink(pool, path, pool.extras[j]) || (LinkStep(pool, path, pool.extras[j]) && NameHit(pool, path + [pool.extras[j]])))
  {
    if n > 0 {
      LinkNamedMeaning(pool, path, n - 1);
    }
  }

  /** A name match right at the end of a link path. */
  ghost predicate NamedAt(pool: Pool, q: Path) {
    && 1 <= |q| < MAX_CHAIN_LEN
    && (|| (exists a :: a in pool.anchors && !InPath(q, a) && Named(q[|q| - 1], a))
        || (|q| < MAX_CHAIN_LEN - 1 && exists e :: e in pool.extras && BadLink(pool, q, e)))
  }

  lemma {:induction false} NameHitSound(pool: Pool, path: Path) returns (q: Path)
    requires 1 <= |path| < MAX_CHAIN_LEN && LinkPath(pool, path) && NameHit(pool, path)
    ensures path <= q && LinkPath(pool, q) && NamedAt(pool, q)
    decreases MAX_CHAIN_LEN - |path|
  {
    hide LinkPath, LinkStep, BadLink, InPath, Named;
    AnchorNamedMeaning(pool, path, |pool.anchors|);
    q := path;
    if !AnchorNamed(pool, path, |pool.anchors|) {
      LinkNamedMeaning(pool, path, |pool.extras|);
      var j :| 0 <= j < |pool.extras| &&
        (BadLink(pool, path, pool.extras[j]) || (LinkStep(pool, path, pool.extras[j]) && NameHit(pool, path + [pool.extras[j]])));
      if !BadLink(pool, path, pool.extras[j]) {
        ExtendLinkPath(pool, path, pool.extras[j]);
        q := NameHitSound(pool, path + [pool.extras[j]]);
      }
    }
  }

  lemma {:induction false} NameHitComplete(pool: Pool, path: Path, q: Path)
    requires 1 <= |path| <= |q| && path <= q && LinkPath(pool, q) && NamedAt(pool, q)
    ensures NameHit(pool, path)
    decreases |q| - |path|
  {
    hide LinkStep, BadLink, InPath, Named;
    AnchorNamedMeaning(pool, path, |pool.anchors|);
    if |path| < MAX_CHAIN_LEN - 1 {
      LinkNamedMeaning(pool, path, |pool.extras|);
    }
    if |path| == |q| {
      assert path == q;
    } else {
      var n := |path|;
      assert q[..n] == path && q[..n + 1] == path + [q[n]];
      LinkPathStep(pool, q, n);
      NameHitComplete(pool, path + [q[n]], q);
      var j :| 0 <= j < |pool.extras| && pool.extras[j] == q[n];
    }
  }

  /** A complete walk reports a name match exactly when some link path from the document signer ends in one. */
  lemma NameHitMeaning(pool: Pool, dsc: Cert)
    ensures NameHit(pool, [dsc]) <==> exists q :: LinkPath(pool, q) && q[0] == dsc && NamedAt(pool, q)
  {
    if NameHit(pool, [dsc]) {
      var q := NameHitSound(pool, [dsc]);
    }
    if q :| LinkPath(pool, q) && q[0] == dsc && NamedAt(pool, q) {
      NameHitComplete(pool, [dsc], q);
    }
  }
}
