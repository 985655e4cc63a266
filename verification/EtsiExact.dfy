/** When the walk over trusted lists returns all the lists that are joined to its root. */
module EtsiExact {
  import opened Sets
  import opened EtsiReach

  /** The lists joined to the root. */
  ghost function JoinedSet(g: Graph, root: Ref, c: Clock): set<Ref> {
    set n | n in g.Keys && Joined(g, root, n, c)
  }

  /** No two joined lists carry the same Source; what other lists carry does not matter. */
  ghost predicate SourcesApart(g: Graph, root: Ref, c: Clock) {
    forall a, b :: a in JoinedSet(g, root, c) && b in JoinedSet(g, root, c) && g[a].source == g[b].source ==> a == b
  }

  /** The graph without the lists that are not in keep. */
  ghost function Restrict(g: Graph, keep: set<Ref>): Graph {
    map r | r in g && r in keep :: g[r]
  }

  // ---------------------------------------------------------------- only joined lists matter

  /** keep has every current list that one of its own refers to. */
  ghost predicate ClosedUnder(g: Graph, keep: set<Ref>, c: Clock) {
    forall r, k :: r in keep && r in g && k in g[r].referenced && Live(g, k, c) ==> k in keep
  }

  lemma {:induction false} PruneRestricted(g: Graph, keep: set<Ref>, r: Ref, visiting: set<Ref>, c: Clock)
    requires ClosedUnder(g, keep, c) && (Live(g, r, c) ==> r in keep)
    ensures Prune(Restrict(g, keep), r, visiting, c) == Prune(g, r, visiting, c)
    decreases |g.Keys - visiting|, 0, 0
  {
    if Live(g, r, c) && r !in visiting {
      Shrinks(g.Keys, visiting, r);
      PruneAllRestricted(g, keep, g[r].referenced, visiting + {r}, c);
    }
  }

  lemma {:induction false} PruneAllRestricted(g: Graph, keep: set<Ref>, refs: seq<Ref>, visiting: set<Ref>, c: Clock)
    requires ClosedUnder(g, keep, c) && forall k :: k in refs && Live(g, k, c) ==> k in keep
    ensures PruneAll(Restrict(g, keep), refs, visiting, c) == PruneAll(g, refs, visiting, c)
    decreases |g.Keys - visiting|, 1, |refs|
  {
    hide Prune, Restrict, ClosedUnder;
    if refs != [] {
      PruneAllRestricted(g, keep, refs[..|refs| - 1], visiting, c);
      PruneRestricted(g, keep, refs[|refs| - 1], visiting, c);
    }
  }

  lemma LastIsLive(g: Graph, p: seq<Ref>, c: Clock)
    requires LivePath(g, p, c)
    ensures Live(g, p[|p| - 1], c)
  {
  }

  lemma PathExtends(g: Graph, p: seq<Ref>, k: Ref, c: Clock)
    requires LivePath(g, p, c) && Live(g, k, c) && k in g[p[|p| - 1]].referenced
    ensures LivePath(g, p + [k], c)
  {
  }

  lemma JoinedIsClosed(g: Graph, root: Ref, c: Clock)
    ensures ClosedUnder(g, JoinedSet(g, root, c), c) && (Live(g, root, c) ==> root in JoinedSet(g, root, c))
  {
    forall r, k | r in JoinedSet(g, root, c) && k in g[r].referenced && Live(g, k, c) ensures k in JoinedSet(g, root, c) {
      var p :| LivePath(g, p, c) && p[0] == root && p[|p| - 1] == r;
      PathExtends(g, p, k, c);
      assert (p + [k])[0] == root && (p + [k])[|p|] == k;
    }
    if Live(g, root, c) { JoinedSelf(g, root, c); }
  }

  /** A path of current lists from the root stays a path when only the joined lists are kept. */
  lemma {:induction false} PathRestricted(g: Graph, root: Ref, p: seq<Ref>, c: Clock)
    requires LivePath(g, p, c) && p[0] == root
    ensures LivePath(Restrict(g, JoinedSet(g, root, c)), p, c)
  {
    forall i | 0 <= i < |p| ensures p[i] in JoinedSet(g, root, c) {
      var q := p[..i + 1];
      assert LivePath(g, q, c) && q[0] == root && q[|q| - 1] == p[i];
    }
  }

  lemma JoinedRestricted(g: Graph, root: Ref, n: Ref, c: Clock)
    ensures Joined(Restrict(g, JoinedSet(g, root, c)), root, n, c) <==> n in JoinedSet(g, root, c)
  {
    var h := Restrict(g, JoinedSet(g, root, c));
    if n in JoinedSet(g, root, c) {
      var p :| LivePath(g, p, c) && p[0] == root && p[|p| - 1] == n;
      PathRestricted(g, root, p, c);
    }
    if Joined(h, root, n, c) {
      var p :| LivePath(h, p, c) && p[0] == root && p[|p| - 1] == n;
      LastIsLive(h, p, c);
      assert n in h.Keys;
    }
  }

  // ---------------------------------------------------------------- exactly the joined lists

  /** The output is one copy of each joined list. */
  ghost predicate OneCopyEach(g: Graph, root: Ref, c: Clock, out: seq<Tree>) {
    exists ns: seq<Ref> :: Names(g, root, c, out, ns)
  }

  ghost predicate Names(g: Graph, root: Ref, c: Clock, out: seq<Tree>, ns: seq<Ref>) {
    && |ns| == |out| && NoDuplicates(ns) && Elements(ns) == JoinedSet(g, root, c)
    && forall i :: 0 <= i < |out| ==> CopyOf(out[i], g, ns[i])
  }

  ghost predicate Named(g: Graph, root: Ref, c: Clock, t: Tree, n: Ref) {
    n in JoinedSet(g, root, c) && CopyOf(t, g, n)
  }

  ghost predicate HasName(g: Graph, root: Ref, c: Clock, t: Tree) {
    exists n: Ref :: Named(g, root, c, t, n)
  }

  ghost predicate AllNamed(g: Graph, root: Ref, c: Clock, out: seq<Tree>) {
    forall i :: 0 <= i < |out| ==> HasName(g, root, c, out[i])
  }

  ghost function NameOf(g: Graph, root: Ref, c: Clock, t: Tree): (n: Ref)
    requires HasName(g, root, c, t)
    ensures Named(g, root, c, t, n)
  {
    var n: Ref :| n in JoinedSet(g, root, c) && CopyOf(t, g, n);
    n
  }

  /** Which joined lists the trees are copies of. */
  ghost function NamesOf(g: Graph, root: Ref, c: Clock, out: seq<Tree>): (ns: seq<Ref>)
    requires AllNamed(g, root, c, out)
    ensures |ns| == |out| && forall i :: 0 <= i < |out| ==> Named(g, root, c, out[i], ns[i])
  {
    seq(|out|, i requires 0 <= i < |out| && HasName(g, root, c, out[i]) => NameOf(g, root, c, out[i]))
  }

  lemma NamesAreAll(g: Graph, root: Ref, c: Clock, out: seq<Tree>, ns: seq<Ref>)
    requires |ns| == |out| && (forall i :: 0 <= i < |out| ==> Named(g, root, c, out[i], ns[i])) && Distinct(out, {})
    requires SourcesApart(g, root, c)
    requires forall n :: n in JoinedSet(g, root, c) ==> exists t :: t in out && CopyOf(t, g, n)
    ensures Names(g, root, c, out, ns)
  {
    hide JoinedSet;
    forall n | n in JoinedSet(g, root, c) ensures n in ns {
      var t :| t in out && CopyOf(t, g, n);
      var i :| 0 <= i < |out| && out[i] == t;
      assert Named(g, root, c, out[i], ns[i]);
    }
    forall i, j | 0 <= i < j < |ns| ensures ns[i] != ns[j] {
      assert Named(g, root, c, out[i], ns[i]) && Named(g, root, c, out[j], ns[j]);
    }
  }

  /** What the walk returns in any case: nothing when the root is not current; else the root first, and copies of joined lists
      with different Sources. */
  lemma WalkReturnsJoined(g: Graph, root: Ref, c: Clock)
    ensures var out := Reach(Prune(g, root, {}, c));
            && (Live(g, root, c) <==> out != []) && (out != [] ==> CopyOf(out[0], g, root)) && Distinct(out, {})
            && AllNamed(g, root, c, out)
  {
    hide Joined, Walk;
    if Live(g, root, c) {
      RootFirst(g, root, c);
      WalkDistinct(Prune(g, root, {}, c).value, {});
      WalkSound(g, root, {}, c, {});
      var out := Reach(Prune(g, root, {}, c));
      forall i | 0 <= i < |out| ensures HasName(g, root, c, out[i]) {
        assert out[i] in out;
        var n :| CopyOf(out[i], g, n) && Joined(g, root, n, c);
        assert Named(g, root, c, out[i], n);
      }
    }
  }

  /** Where the joined lists carry different Sources, each of them is returned. */
  lemma WalkReturnsAll(g: Graph, root: Ref, c: Clock, n: Ref)
    requires SourcesApart(g, root, c) && n in JoinedSet(g, root, c)
    ensures exists t :: t in Reach(Prune(g, root, {}, c)) && CopyOf(t, g, n)
  {
    var keep := JoinedSet(g, root, c);
    var h := Restrict(g, keep);
    JoinedIsClosed(g, root, c);
    PruneRestricted(g, keep, root, {}, c);
    JoinedRestricted(g, root, n, c);
    assert SourceIdentifies(h);
    hide Prune, JoinedSet, Joined, Reach;
    WalkIsExact(h, root, c, Reach(Prune(g, root, {}, c)));
    var t :| t in Reach(Prune(g, root, {}, c)) && CopyOf(t, h, n);
    assert CopyOf(t, g, n);
  }

  /** Different Sources in the output leave no room for two joined lists with one Source. */
  lemma NamesTellApart(g: Graph, root: Ref, c: Clock, out: seq<Tree>, ns: seq<Ref>)
    requires Names(g, root, c, out, ns) && Distinct(out, {})
    ensures SourcesApart(g, root, c)
  {
    hide JoinedSet;
    forall a, b | a in JoinedSet(g, root, c) && b in JoinedSet(g, root, c) && g[a].source == g[b].source ensures a == b {
      assert a in Elements(ns) && b in Elements(ns);
      var i :| 0 <= i < |ns| && ns[i] == a;
      var j :| 0 <= j < |ns| && ns[j] == b;
      assert out[i].source == out[j].source;
    }
  }

  /** reachable returns the lists joined to the root, each once, exactly when no two of them carry the same Source. */
  lemma ReachableIsExact(g: Graph, root: Ref, c: Clock)
    ensures OneCopyEach(g, root, c, Reach(Prune(g, root, {}, c))) <==> SourcesApart(g, root, c)
  {
    var out := Reach(Prune(g, root, {}, c));
    WalkReturnsJoined(g, root, c);
    hide Reach, Prune, JoinedSet, Names, Distinct, AllNamed;
    if SourcesApart(g, root, c) {
      forall n | n in JoinedSet(g, root, c) ensures exists t :: t in out && CopyOf(t, g, n) {
        WalkReturnsAll(g, root, c, n);
      }
      NamesAreAll(g, root, c, out, NamesOf(g, root, c, out));
    }
    if ns: seq<Ref> :| Names(g, root, c, out, ns) { NamesTellApart(g, root, c, out, ns); }
  }
}
