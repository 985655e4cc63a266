/** Which chain a search meets first. */
module EmrtdOrder {
  import opened EmrtdChain
  import opened EmrtdSearch

  /** x stands in the list before any y. */
  ghost predicate StandsBefore(all: seq<Cert>, x: Cert, y: Cert) {
    exists i: nat :: i < |all| && all[i] == x && y !in all[..i + 1]
  }

  /** Where the chains first differ, the certificate of c stands before that of d, anchors standing before supplied ones. */
  ghost predicate NoLater(pool: Pool, c: Path, d: Path) {
    c == d || exists k: nat :: DiffersAt(c, d, k) && StandsBefore(pool.anchors + pool.extras, c[k], d[k])
  }

  ghost predicate DiffersAt(c: Path, d: Path, k: nat) {
    k < |c| && k < |d| && c[..k] == d[..k] && c[k] != d[k]
  }

  ghost predicate FirstAnchorAt(pool: Pool, path: Path, i: nat)
    requires path != []
  {
    i < |pool.anchors| && AnchorStep(pool, path, pool.anchors[i])
    && forall j :: 0 <= j < i ==> !AnchorStep(pool, path, pool.anchors[j])
  }

  lemma {:induction false} FirstAnchor(pool: Pool, path: Path, n: nat) returns (i: nat)
    requires path != [] && n <= |pool.anchors| && AnchorChains(pool, path, n) != []
    ensures i < n && FirstAnchorAt(pool, path, i) && AnchorChains(pool, path, n)[0] == path + [pool.anchors[i]]
  {
    hide AnchorStep;
    if AnchorChains(pool, path, n - 1) != [] {
      i := FirstAnchor(pool, path, n - 1);
    } else {
      i := n - 1;
      forall j | 0 <= j < i ensures !AnchorStep(pool, path, pool.anchors[j]) {
        InAnchorChains(pool, path, i, path + [pool.anchors[j]]);
      }
    }
  }

  /** A walk goes on from this extra, and finds something. */
  ghost predicate LeadsOn(pool: Pool, path: Path, e: Cert)
    requires 1 <= |path| < MAX_CHAIN_LEN - 1
  {
    LinkStep(pool, path, e) && Chains(pool, path + [e]) != []
  }

  ghost predicate FirstLinkAt(pool: Pool, path: Path, i: nat)
    requires 1 <= |path| < MAX_CHAIN_LEN - 1
  {
    i < |pool.extras| && LeadsOn(pool, path, pool.extras[i])
    && forall j :: 0 <= j < i ==> !LeadsOn(pool, path, pool.extras[j])
  }

  lemma {:induction false} FirstLink(pool: Pool, path: Path, n: nat) returns (i: nat)
    requires 1 <= |path| < MAX_CHAIN_LEN - 1 && n <= |pool.extras| && LinkChains(pool, path, n) != []
    ensures i < n && FirstLinkAt(pool, path, i) && LinkChains(pool, path, n)[0] == Chains(pool, path + [pool.extras[i]])[0]
  {
    hide LinkStep, Chains;
    if LinkChains(pool, path, n - 1) != [] {
      i := FirstLink(pool, path, n - 1);
    } else {
      i := n - 1;
      forall j | 0 <= j < i ensures !LeadsOn(pool, path, pool.extras[j]) {
        if LeadsOn(pool, path, pool.extras[j]) {
          InLinkChains(pool, path, i, Chains(pool, path + [pool.extras[j]])[0]);
        }
      }
    }
  }

  lemma AnchorIsAnchor(pool: Pool, y: Cert)
    ensures y in pool.anchors ==> IsAnchor(pool, y)
  {
  }

  lemma AnchorBefore(pool: Pool, path: Path, i: nat, y: Cert)
    requires path != [] && FirstAnchorAt(pool, path, i) && y != pool.anchors[i]
    requires AnchorStep(pool, path, y) || !IsAnchor(pool, y)
    ensures StandsBefore(pool.anchors + pool.extras, pool.anchors[i], y)
  {
    hide AnchorStep, IsAnchor;
    var all := pool.anchors + pool.extras;
    AnchorIsAnchor(pool, y);
    assert all[..i + 1] == pool.anchors[..i] + [pool.anchors[i]];
    assert y !in pool.anchors[..i];
    assert all[i] == pool.anchors[i] && y !in all[..i + 1];
  }

  lemma LinkBefore(pool: Pool, path: Path, i: nat, y: Cert)
    requires 1 <= |path| < MAX_CHAIN_LEN - 1 && FirstLinkAt(pool, path, i) && y != pool.extras[i] && LeadsOn(pool, path, y)
    ensures StandsBefore(pool.anchors + pool.extras, pool.extras[i], y)
  {
    assert !IsAnchor(pool, y);
    hide LeadsOn, IsAnchor;
    var all, k := pool.anchors + pool.extras, |pool.anchors| + i;
    AnchorIsAnchor(pool, y);
    assert all[..k + 1] == pool.anchors + pool.extras[..i] + [pool.extras[i]];
    assert y !in pool.extras[..i];
    assert all[k] == pool.extras[i] && y !in all[..k + 1];
  }

  lemma Differ(path: Path, c: Path, d: Path)
    requires path < c && path < d && c[|path|] != d[|path|]
    ensures DiffersAt(c, d, |path|)
  {
    assert c[..|path|] == path == d[..|path|];
  }

  /** Of all chains that extend a path, the search meets one first that no other stands before. */
  lemma {:induction false} FirstIsLeast(pool: Pool, path: Path, d: Path)
    requires 1 <= |path| < MAX_CHAIN_LEN && LinkPath(pool, path) && d in Chains(pool, path)
    ensures NoLater(pool, Chains(pool, path)[0], d)
    decreases MAX_CHAIN_LEN - |path|
  {
    hide AnchorStep, LinkStep, LinkPath, IsAnchor;
    var n, m, k := |pool.anchors|, |pool.extras|, |path|;
    var c := Chains(pool, path)[0];
    InAnchorChains(pool, path, n, d);
    if AnchorChains(pool, path, n) != [] {
      var i := FirstAnchor(pool, path, n);
      if d in AnchorChains(pool, path, n) {
        var j :| 0 <= j < n && AnchorStep(pool, path, pool.anchors[j]) && d == path + [pool.anchors[j]];
        if pool.anchors[j] != pool.anchors[i] {
          AnchorBefore(pool, path, i, pool.anchors[j]);
          Differ(path, c, d);
        }
      } else {
        InLinkChains(pool, path, m, d);
        var j :| 0 <= j < m && LinkStep(pool, path, pool.extras[j]) && d in Chains(pool, path + [pool.extras[j]]);
        LinkIsNoAnchor(pool, path, pool.extras[j]);
        Extends(pool, path, pool.extras[j], d);
        AnchorIsAnchor(pool, pool.extras[j]);
        AnchorBefore(pool, path, i, pool.extras[j]);
        Differ(path, c, d);
      }
    } else {
      InLinkChains(pool, path, m, d);
      var j :| 0 <= j < m && LinkStep(pool, path, pool.extras[j]) && d in Chains(pool, path + [pool.extras[j]]);
      assert AnchorChains(pool, path, n) + LinkChains(pool, path, m) == LinkChains(pool, path, m);
      var i := FirstLink(pool, path, m);
      if pool.extras[j] == pool.extras[i] {
        ExtendLinkPath(pool, path, pool.extras[j]);
        FirstIsLeast(pool, path + [pool.extras[j]], d);
      } else {
        Extends(pool, path, pool.extras[i], c);
        Extends(pool, path, pool.extras[j], d);
        LinkBefore(pool, path, i, pool.extras[j]);
        Differ(path, c, d);
      }
    }
  }

  lemma LinkIsNoAnchor(pool: Pool, path: Path, e: Cert)
    requires path != [] && LinkStep(pool, path, e)
    ensures !IsAnchor(pool, e)
  {
  }

  lemma Extends(pool: Pool, path: Path, e: Cert, d: Path)
    requires 1 <= |path| < MAX_CHAIN_LEN - 1 && LinkPath(pool, path) && e in pool.extras && LinkStep(pool, path, e)
    requires d in Chains(pool, path + [e])
    ensures path < d && d[|path|] == e
  {
    ExtendLinkPath(pool, path, e);
    ChainsSound(pool, path + [e], d);
    assert d[..|path| + 1] == path + [e];
    assert d[..|path|] == d[..|path| + 1][..|path|] == path;
    assert d[|path|] == d[..|path| + 1][|path|];
  }

  /** The chain that an exhaustive denial speaks of. */
  lemma FirstChain(pool: Pool, dsc: Cert, d: Path)
    requires IsChain(pool, d) && d[0] == dsc
    ensures var all := Chains(pool, [dsc]);
            all != [] && IsChain(pool, all[0]) && all[0][0] == dsc && NoLater(pool, all[0], d)
  {
    hide Chains, LinkPath, Signed;
    ChainsAreExactly(pool, dsc, d);
    ChainsAreExactly(pool, dsc, Chains(pool, [dsc])[0]);
    OneIsLinkPath(pool, dsc);
    FirstIsLeast(pool, [dsc], d);
  }

  lemma OneIsLinkPath(pool: Pool, dsc: Cert)
    ensures LinkPath(pool, [dsc])
  {
  }
}
