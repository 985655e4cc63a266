/** Which trust status lists count: those joined to a root by current lists, on a possibly cyclic reference graph. */
module EtsiReach {
  import opened Options

  /** NextUpdate of a list: missing, not a date, or a date. */
  datatype Deadline = Absent | Unreadable | At(t: int)

  type Ref = nat

  /** A fetched list; references are pointers, so the graph may be cyclic. */
  datatype Tsl = Tsl(source: string, deadline: Deadline, certs: seq<int>, referenced: seq<Ref>)

  type Graph = map<Ref, Tsl>

  /** A copy made by prune: it refers to other copies only, so copies form trees. */
  datatype Tree = Node(source: string, deadline: Deadline, certs: seq<int>, referenced: seq<Tree>)

  datatype Clock = Clock(now: int, allowStale: bool)

  /** checkFresh without its error text. */
  predicate Fresh(d: Deadline, c: Clock) {
    c.allowStale ||
    match d
    case Absent => true
    case Unreadable => false
    case At(t) => c.now <= t
  }

  // ---------------------------------------------------------------- pruning

  /** pruneVisiting: None is the nil it returns. A reference outside the graph is a nil pointer. */
  function Prune(g: Graph, r: Ref, visiting: set<Ref>, c: Clock): Option<Tree>
    decreases |g.Keys - visiting|, 0, 0
  {
    if r !in g || r in visiting || !Fresh(g[r].deadline, c) then None
    else
      Shrinks(g.Keys, visiting, r);
      Some(Node(g[r].source, g[r].deadline, g[r].certs, PruneAll(g, g[r].referenced, visiting + {r}, c)))
  }

  function PruneAll(g: Graph, refs: seq<Ref>, visiting: set<Ref>, c: Clock): seq<Tree>
    decreases |g.Keys - visiting|, 1, |refs|
  {
    if refs == [] then []
    else PruneAll(g, refs[..|refs| - 1], visiting, c) + Kept(Prune(g, refs[|refs| - 1], visiting, c))
  }

  function Kept(t: Option<Tree>): seq<Tree> {
    if t.Some? then [t.value] else []
  }

  lemma Shrinks(keys: set<Ref>, visiting: set<Ref>, r: Ref)
    requires r in keys && r !in visiting
    ensures |keys - (visiting + {r})| < |keys - visiting|
  {
    assert keys - (visiting + {r}) == (keys - visiting) - {r};
  }

  method PruneVisiting(g: Graph, r: Ref, visiting: set<Ref>, c: Clock) returns (t: Option<Tree>)
    ensures t == Prune(g, r, visiting, c)
    decreases |g.Keys - visiting|
  {
    if r !in g || r in visiting || !Fresh(g[r].deadline, c) {
      return None;
    }
    Shrinks(g.Keys, visiting, r);
    var kept: seq<Tree> := [];
    var refs := g[r].referenced;
    for i := 0 to |refs|
      invariant kept == PruneAll(g, refs[..i], visiting + {r}, c)
    {
      var p := PruneVisiting(g, refs[i], visiting + {r}, c);
      if p.Some? {
        kept := kept + [p.value];
      }
      assert refs[..i + 1][..i] == refs[..i];
    }
    assert refs[..|refs|] == refs;
    return Some(Node(g[r].source, g[r].deadline, g[r].certs, kept));
  }

  // ---------------------------------------------------------------- walking the copies

  /** The copies the walk adds to its output, given the sources seen before. */
  function Walk(t: Tree, seen: set<string>): seq<Tree>
    decreases t, 0
  {
    if t.source in seen then [] else [t] + WalkAll(t.referenced, seen + {t.source})
  }

  function WalkAll(ts: seq<Tree>, seen: set<string>): seq<Tree>
    decreases ts, |ts|
  {
    if ts == [] then []
    else
      var before := WalkAll(ts[..|ts| - 1], seen);
      before + Walk(ts[|ts| - 1], seen + SourceSet(before))
  }

  function SourceSet(ts: seq<Tree>): set<string> {
    set i | 0 <= i < |ts| :: ts[i].source
  }

  method WalkCopies(t: Tree, seen: set<string>, out: seq<Tree>) returns (seen': set<string>, out': seq<Tree>)
    ensures out' == out + Walk(t, seen) && seen' == seen + SourceSet(Walk(t, seen))
    decreases t
  {
    hide SourceSet;
    seen', out' := seen, out;
    if t.source in seen {
      NothingSeen();
      return;
    }
    seen' := seen' + {t.source};
    out' := out' + [t];
    NothingSeen();
    for i := 0 to |t.referenced|
      invariant out' == out + [t] + WalkAll(t.referenced[..i], seen + {t.source})
      invariant seen' == seen + {t.source} + SourceSet(WalkAll(t.referenced[..i], seen + {t.source}))
    {
      assert t.referenced[..i + 1][..i] == t.referenced[..i];
      SourceSetConcat(WalkAll(t.referenced[..i], seen + {t.source}), Walk(t.referenced[i], seen'));
      seen', out' := WalkCopies(t.referenced[i], seen', out');
    }
    assert t.referenced[..|t.referenced|] == t.referenced;
    WalkUnfolds(t, seen, out);
  }

  lemma NothingSeen()
    ensures SourceSet([]) == {}
  {
  }

  lemma WalkUnfolds(t: Tree, seen: set<string>, out: seq<Tree>)
    requires t.source !in seen
    ensures out + Walk(t, seen) == out + [t] + WalkAll(t.referenced, seen + {t.source})
    ensures SourceSet(Walk(t, seen)) == {t.source} + SourceSet(WalkAll(t.referenced, seen + {t.source}))
  {
    SourceSetConcat([t], WalkAll(t.referenced, seen + {t.source}));
    assert [t][0].source == t.source;
    assert SourceSet([t]) == {t.source};
  }

  /** WalkAll over what PruneAll keeps, one reference at a time. */
  lemma WalkAllNext(g: Graph, refs: seq<Ref>, visiting: set<Ref>, c: Clock, seen: set<string>)
    requires refs != []
    ensures var before := WalkAll(PruneAll(g, refs[..|refs| - 1], visiting, c), seen);
            var p := Prune(g, refs[|refs| - 1], visiting, c);
            var last := if p.Some? then Walk(p.value, seen + SourceSet(before)) else [];
            WalkAll(PruneAll(g, refs, visiting, c), seen) == before + last
            && SourceSet(before + last) == SourceSet(before) + SourceSet(last)
  {
    var ts := PruneAll(g, refs[..|refs| - 1], visiting, c);
    var p := Prune(g, refs[|refs| - 1], visiting, c);
    var before := WalkAll(ts, seen);
    if p.Some? {
      assert (ts + [p.value])[..|ts|] == ts;
      SourceSetConcat(before, Walk(p.value, seen + SourceSet(before)));
    } else {
      assert ts + Kept(p) == ts;
      assert before + [] == before;
    }
  }

  lemma SourceSetConcat(a: seq<Tree>, b: seq<Tree>)
    ensures SourceSet(a + b) == SourceSet(a) + SourceSet(b)
  {
    forall x | x in SourceSet(b)
      ensures x in SourceSet(a + b)
    {
      var i :| 0 <= i < |b| && b[i].source == x;
      assert (a + b)[|a| + i].source == x;
    }
    forall x | x in SourceSet(a)
      ensures x in SourceSet(a + b)
    {
      var i :| 0 <= i < |a| && a[i].source == x;
      assert (a + b)[i].source == x;
    }
  }

  /** reachable. */
  function Reach(p: Option<Tree>): seq<Tree> {
    if p.None? then [] else Walk(p.value, {})
  }

  method Reachable(g: Graph, root: Ref, c: Clock) returns (out: seq<Tree>)
    ensures out == Reach(Prune(g, root, {}, c))
  {
    var p := PruneVisiting(g, root, {}, c);
    if p.None? {
      return [];
    }
    var seen: set<string>;
    seen, out := WalkCopies(p.value, {}, []);
  }

  // ---------------------------------------------------------------- what it returns

  ghost predicate Live(g: Graph, n: Ref, c: Clock) {
    n in g && Fresh(g[n].deadline, c)
  }

  ghost predicate LivePath(g: Graph, p: seq<Ref>, c: Clock) {
    && p != []
    && (forall i :: 0 <= i < |p| ==> Live(g, p[i], c))
    && (forall i :: 0 < i < |p| ==> p[i] in g[p[i - 1]].referenced)
  }

  /** n is joined to r by a path of lists that are all current. */
  ghost predicate Joined(g: Graph, r: Ref, n: Ref, c: Clock) {
    exists p :: LivePath(g, p, c) && p[0] == r && p[|p| - 1] == n
  }

  ghost predicate SourceIdentifies(g: Graph) {
    forall a, b :: a in g && b in g && g[a].source == g[b].source ==> a == b
  }

  /** A copy of list n, whatever became of its references. */
  ghost predicate CopyOf(t: Tree, g: Graph, n: Ref) {
    n in g && t.source == g[n].source && t.deadline == g[n].deadline && t.certs == g[n].certs
  }

  lemma JoinedStep(g: Graph, r: Ref, k: Ref, n: Ref, c: Clock)
    requires Live(g, r, c) && k in g[r].referenced && Joined(g, k, n, c)
    ensures Joined(g, r, n, c)
  {
    var p :| LivePath(g, p, c) && p[0] == k && p[|p| - 1] == n;
    var q := [r] + p;
    forall i | 0 < i < |q|
      ensures q[i] in g[q[i - 1]].referenced
    {
      if i > 1 {
        assert q[i] == p[i - 1] && q[i - 1] == p[i - 2];
      }
    }
    assert LivePath(g, q, c) && q[|q| - 1] == n;
  }

  lemma JoinedSelf(g: Graph, r: Ref, c: Clock)
    requires Live(g, r, c)
    ensures Joined(g, r, r, c)
  {
    assert LivePath(g, [r], c);
  }

  ghost predicate Distinct(ts: seq<Tree>, seen: set<string>) {
    && (forall i :: 0 <= i < |ts| ==> ts[i].source !in seen)
    && (forall i, j :: 0 <= i < j < |ts| ==> ts[i].source != ts[j].source)
  }

  lemma DistinctConcat(a: seq<Tree>, b: seq<Tree>, seen: set<string>)
    requires Distinct(a, seen) && Distinct(b, seen + SourceSet(a))
    ensures Distinct(a + b, seen)
  {
    forall i, j | 0 <= i < j < |a + b|
      ensures (a + b)[i].source != (a + b)[j].source
    {
      if i < |a| <= j {
        assert a[i].source in SourceSet(a);
        assert (a + b)[j] == b[j - |a|];
      }
    }
  }

  /** No source is output twice. */
  lemma {:induction false} WalkDistinct(t: Tree, seen: set<string>)
    ensures Distinct(Walk(t, seen), seen)
    decreases t, 0
  {
    if t.source !in seen {
      WalkAllDistinct(t.referenced, seen + {t.source});
      assert SourceSet([t]) == {t.source} by {
        assert [t][0].source == t.source;
      }
      DistinctConcat([t], WalkAll(t.referenced, seen + {t.source}), seen);
    }
  }

  lemma {:induction false} WalkAllDistinct(ts: seq<Tree>, seen: set<string>)
    ensures Distinct(WalkAll(ts, seen), seen)
    decreases ts, |ts|
  {
    if ts != [] {
      var before := WalkAll(ts[..|ts| - 1], seen);
      WalkAllDistinct(ts[..|ts| - 1], seen);
      WalkDistinct(ts[|ts| - 1], seen + SourceSet(before));
      DistinctConcat(before, Walk(ts[|ts| - 1], seen + SourceSet(before)), seen);
    }
  }

  ghost predicate AllJoined(ts: seq<Tree>, g: Graph, r: Ref, c: Clock) {
    forall t :: t in ts ==> exists n :: CopyOf(t, g, n) && Joined(g, r, n, c)
  }

  /** Everything output is a copy of a joined list. */
  lemma {:induction false} WalkSound(g: Graph, r: Ref, visiting: set<Ref>, c: Clock, seen: set<string>)
    requires Prune(g, r, visiting, c).Some?
    ensures AllJoined(Walk(Prune(g, r, visiting, c).value, seen), g, r, c)
    decreases |g.Keys - visiting|, 0, 0
  {
    var t := Prune(g, r, visiting, c).value;
    assert Live(g, r, c) && CopyOf(t, g, r) && t.referenced == PruneAll(g, g[r].referenced, visiting + {r}, c);
    Shrinks(g.Keys, visiting, r);
    hide Prune, PruneAll, WalkAll, Live, CopyOf, Joined;
    JoinedSelf(g, r, c);
    if t.source !in seen {
      WalkAllSound(g, r, g[r].referenced, visiting + {r}, c, seen + {t.source});
    }
  }

  lemma {:induction false} WalkAllSound(g: Graph, r: Ref, refs: seq<Ref>, visiting: set<Ref>, c: Clock, seen: set<string>)
    requires Live(g, r, c) && forall k :: k in refs ==> k in g[r].referenced
    ensures AllJoined(WalkAll(PruneAll(g, refs, visiting, c), seen), g, r, c)
    decreases |g.Keys - visiting|, 1, |refs|
  {
    if refs != [] {
      hide Joined, Walk, WalkAll, Prune, PruneAll;
      var rest, k := refs[..|refs| - 1], refs[|refs| - 1];
      WalkAllSound(g, r, rest, visiting, c, seen);
      WalkAllNext(g, refs, visiting, c, seen);
      var p := Prune(g, k, visiting, c);
      if p.Some? {
        var seen' := seen + SourceSet(WalkAll(PruneAll(g, rest, visiting, c), seen));
        WalkSound(g, k, visiting, c, seen');
        forall t | t in Walk(p.value, seen')
          ensures exists n :: CopyOf(t, g, n) && Joined(g, r, n, c)
        {
          var n :| CopyOf(t, g, n) && Joined(g, k, n, c);
          JoinedStep(g, r, k, n, c);
        }
      }
    }
  }

  ghost predicate Covers(g: Graph, refs: set<Ref>, seen: set<string>) {
    forall v :: v in refs && v in g ==> g[v].source in seen
  }

  /** Every current reference of a list whose source was added has its source in all. */
  ghost predicate Closed(g: Graph, c: Clock, added: set<string>, all: set<string>) {
    forall n, k :: Live(g, n, c) && g[n].source in added && k in g[n].referenced && Live(g, k, c) ==> g[k].source in all
  }

  lemma ClosedUnion(g: Graph, c: Clock, a: set<string>, some: set<string>, b: set<string>, all: set<string>)
    requires Closed(g, c, a, some) && some <= all && Closed(g, c, b, all)
    ensures Closed(g, c, a + b, all)
  {
  }

  /** The first copy of a list lacks only references to its ancestors, which have been seen: skipping later copies
      of the same list loses nothing. */
  lemma {:induction false} WalkCloses(g: Graph, r: Ref, visiting: set<Ref>, c: Clock, seen: set<string>)
    requires SourceIdentifies(g) && Prune(g, r, visiting, c).Some? && Covers(g, visiting, seen)
    ensures var added := SourceSet(Walk(Prune(g, r, visiting, c).value, seen));
            g[r].source in seen + added && Closed(g, c, added, seen + added)
    decreases |g.Keys - visiting|, 0, 0
  {
    var t := Prune(g, r, visiting, c).value;
    var src := t.source;
    if src in seen {
      assert SourceSet(Walk(t, seen)) == {};
    } else {
      Shrinks(g.Keys, visiting, r);
      WalkAllCloses(g, g[r].referenced, visiting + {r}, c, seen + {src});
      WalkUnfolds(t, seen, []);
      var below := SourceSet(WalkAll(t.referenced, seen + {src}));
      var all := seen + ({src} + below);
      assert seen + {src} + below == all;
      OwnReferences(g, r, c, all);
      hide Closed, Walk, WalkAll, Prune, SourceIdentifies, SourceSet;
      ClosedUnion(g, c, {src}, all, below, all);
    }
  }

  lemma OwnReferences(g: Graph, r: Ref, c: Clock, all: set<string>)
    requires SourceIdentifies(g) && Live(g, r, c)
    requires forall k :: k in g[r].referenced && Live(g, k, c) ==> g[k].source in all
    ensures Closed(g, c, {g[r].source}, all)
  {
  }

  lemma {:induction false} WalkAllCloses(g: Graph, refs: seq<Ref>, visiting: set<Ref>, c: Clock, seen: set<string>)
    requires SourceIdentifies(g) && Covers(g, visiting, seen)
    ensures var added := SourceSet(WalkAll(PruneAll(g, refs, visiting, c), seen));
            (forall k :: k in refs && Live(g, k, c) ==> g[k].source in seen + added) && Closed(g, c, added, seen + added)
    decreases |g.Keys - visiting|, 1, |refs|
  {
    if refs == [] {
      assert WalkAll(PruneAll(g, refs, visiting, c), seen) == [];
    } else {
      var rest, k := refs[..|refs| - 1], refs[|refs| - 1];
      var p := Prune(g, k, visiting, c);
      assert p.None? ==> !Live(g, k, c) || g[k].source in seen;
      hide Walk, WalkAll, Prune, PruneAll, Closed, SourceSet, SourceIdentifies, Covers;
      CoversMore(g, visiting, seen);
      WalkAllCloses(g, rest, visiting, c, seen);
      WalkAllNext(g, refs, visiting, c, seen);
      var before := SourceSet(WalkAll(PruneAll(g, rest, visiting, c), seen));
      var last := SourceSet(if p.Some? then Walk(p.value, seen + before) else []);
      if p.Some? {
        WalkCloses(g, k, visiting, c, seen + before);
      } else {
        NothingAdded(g, c, seen + before);
      }
      assert seen + before + last == seen + (before + last);
      ClosedUnion(g, c, before, seen + before, last, seen + (before + last));
    }
  }

  lemma CoversMore(g: Graph, refs: set<Ref>, seen: set<string>)
    requires Covers(g, refs, seen)
    ensures forall more :: Covers(g, refs, seen + more)
  {
  }

  lemma NothingAdded(g: Graph, c: Clock, seen: set<string>)
    ensures SourceSet([]) == {} && Closed(g, c, SourceSet([]), seen + SourceSet([]))
  {
  }

  lemma {:induction false} ClosedReaches(g: Graph, c: Clock, all: set<string>, p: seq<Ref>)
    requires LivePath(g, p, c) && g[p[0]].source in all && Closed(g, c, all, all)
    ensures g[p[|p| - 1]].source in all
  {
    if |p| > 1 {
      var q := p[..|p| - 1];
      assert LivePath(g, q, c);
      ClosedReaches(g, c, all, q);
      assert p[|p| - 1] in g[q[|q| - 1]].referenced;
    }
  }

  /** Where Source identifies a list of the whole graph, the walk returns exactly the joined lists, each once, the root first. */
  lemma WalkIsExact(g: Graph, root: Ref, c: Clock, out: seq<Tree>)
    requires SourceIdentifies(g) && out == Reach(Prune(g, root, {}, c))
    ensures Live(g, root, c) <==> out != []
    ensures out != [] ==> CopyOf(out[0], g, root)
    ensures Distinct(out, {})
    ensures forall t :: t in out ==> exists n :: CopyOf(t, g, n) && Joined(g, root, n, c)
    ensures forall n :: Joined(g, root, n, c) ==> exists t :: t in out && CopyOf(t, g, n)
  {
    hide Joined, Walk, Closed;
    if !Live(g, root, c) {
      forall n
        ensures !Joined(g, root, n, c)
      {
        NotJoined(g, root, n, c);
      }
    } else {
      RootFirst(g, root, c);
      var t := Prune(g, root, {}, c).value;
      WalkDistinct(t, {});
      WalkSound(g, root, {}, c, {});
      WalkCloses(g, root, {}, c, {});
      assert {} + SourceSet(out) == SourceSet(out);
      forall n | Joined(g, root, n, c)
        ensures exists u :: u in out && CopyOf(u, g, n)
      {
        JoinedIsOutput(g, root, n, c, out);
      }
    }
  }

  lemma NotJoined(g: Graph, root: Ref, n: Ref, c: Clock)
    requires !Live(g, root, c)
    ensures !Joined(g, root, n, c)
  {
  }

  lemma RootFirst(g: Graph, root: Ref, c: Clock)
    requires Live(g, root, c)
    ensures var p := Prune(g, root, {}, c);
            p.Some? && Walk(p.value, {}) != [] && Walk(p.value, {})[0] == p.value && CopyOf(p.value, g, root)
  {
  }

  lemma JoinedIsOutput(g: Graph, root: Ref, n: Ref, c: Clock, out: seq<Tree>)
    requires SourceIdentifies(g) && Joined(g, root, n, c) && AllJoined(out, g, root, c)
    requires g[root].source in SourceSet(out) && Closed(g, c, SourceSet(out), SourceSet(out))
    ensures exists u :: u in out && CopyOf(u, g, n)
  {
    var p :| LivePath(g, p, c) && p[0] == root && p[|p| - 1] == n;
    ClosedReaches(g, c, SourceSet(out), p);
    var i :| 0 <= i < |out| && out[i].source == g[n].source;
    assert out[i] in out;
    var m :| CopyOf(out[i], g, m) && Joined(g, root, m, c);
    assert m == n;
  }

  /** A root that refers to two lists which carry the same Source. */
  ghost function SharedSource(): Graph {
    map[0 := Tsl("root", Absent, [], [1, 2]), 1 := Tsl("twin", Absent, [10], []), 2 := Tsl("twin", Absent, [20], [])]
  }

  ghost function SharedSourcePruned(): Tree {
    Node("root", Absent, [], [Node("twin", Absent, [10], []), Node("twin", Absent, [20], [])])
  }

  lemma PruneSharedSource(c: Clock)
    ensures Prune(SharedSource(), 0, {}, c) == Some(SharedSourcePruned())
  {
    var g := SharedSource();
    assert [1, 2][..1] == [1] && [1][..0] == [];
    assert {} + {0} == {0};
    assert PruneAll(g, [1], {0}, c) == [Node("twin", Absent, [10], [])];
    assert PruneAll(g, [1, 2], {0}, c) == SharedSourcePruned().referenced;
  }

  lemma SharedSourceJoins(c: Clock)
    ensures Joined(SharedSource(), 0, 2, c)
  {
    assert LivePath(SharedSource(), [0, 2], c);
  }

  /** The walk tells lists apart by Source alone: where two joined lists share one, the later is dropped. */
  lemma SharedSourceLosesAList(c: Clock)
    ensures Joined(SharedSource(), 0, 2, c)
    ensures !exists t :: t in Reach(Prune(SharedSource(), 0, {}, c)) && CopyOf(t, SharedSource(), 2)
  {
    SharedSourceJoins(c);
    hide Prune, PruneAll, Joined, Live;
    PruneSharedSource(c);
    var root := SharedSourcePruned();
    var twins := root.referenced;
    assert twins[..1] == [twins[0]] && [twins[0]][..0] == [];
    assert WalkAll([twins[0]], {} + {"root"}) == [twins[0]];
    assert [twins[0]][0].source in SourceSet([twins[0]]);
    assert WalkAll(twins, {} + {"root"}) == [twins[0]];
    assert Walk(root, {}) == [root, twins[0]];
  }
}
