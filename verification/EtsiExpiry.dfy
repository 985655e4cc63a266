/** Lazy expiry of trust status lists: dropping what lapsed must leave what a recomputation from the loaded lists gives. */
module EtsiExpiry {
  import opened Options
  import opened EtsiReach

  // ---------------------------------------------------------------- pruning a copy again

  /** prune applied to a copy made earlier; copies are never shared, so no reference is being visited already. */
  function PruneTree(t: Tree, c: Clock): Option<Tree>
    decreases t, 0
  {
    if !Fresh(t.deadline, c) then None
    else Some(Node(t.source, t.deadline, t.certs, PruneTrees(t.referenced, c)))
  }

  function PruneTrees(ts: seq<Tree>, c: Clock): seq<Tree>
    decreases ts, |ts|
  {
    if ts == [] then [] else PruneTrees(ts[..|ts| - 1], c) + Kept(PruneTree(ts[|ts| - 1], c))
  }

  function PruneAgain(t: Option<Tree>, c: Clock): Option<Tree> {
    if t.None? then None else PruneTree(t.value, c)
  }

  ghost predicate Later(c: Clock, d: Clock) {
    c.allowStale == d.allowStale && c.now <= d.now
  }

  /** Pruning at one time and again later is pruning the original at the later time. */
  lemma {:induction false} PruneTwice(g: Graph, r: Ref, visiting: set<Ref>, c: Clock, d: Clock)
    requires Later(c, d)
    ensures PruneAgain(Prune(g, r, visiting, c), d) == Prune(g, r, visiting, d)
    decreases |g.Keys - visiting|, 0, 0
  {
    if r in g && r !in visiting && Fresh(g[r].deadline, c) {
      Shrinks(g.Keys, visiting, r);
      PruneAllTwice(g, g[r].referenced, visiting + {r}, c, d);
    }
  }

  lemma {:induction false} PruneAllTwice(g: Graph, refs: seq<Ref>, visiting: set<Ref>, c: Clock, d: Clock)
    requires Later(c, d)
    ensures PruneTrees(PruneAll(g, refs, visiting, c), d) == PruneAll(g, refs, visiting, d)
    decreases |g.Keys - visiting|, 1, |refs|
  {
    if refs != [] {
      var rest, k := refs[..|refs| - 1], refs[|refs| - 1];
      PruneAllTwice(g, rest, visiting, c, d);
      PruneTwice(g, k, visiting, c, d);
      var ts := PruneAll(g, rest, visiting, c);
      var p := Prune(g, k, visiting, c);
      if p.Some? {
        assert (ts + [p.value])[..|ts|] == ts;
      } else {
        assert ts + Kept(p) == ts;
        var ds := PruneAll(g, rest, visiting, d);
        assert ds + Kept(Prune(g, k, visiting, d)) == ds;
      }
    }
  }

  // ---------------------------------------------------------------- deadlines

  function Earlier(a: Option<int>, b: Option<int>): Option<int> {
    if a.None? then b else if b.None? || a.value <= b.value then a else b
  }

  function Dated(d: Deadline): Option<int> {
    if d.At? then Some(d.t) else None
  }

  /** The earliest deadline in a copy and what it refers to. */
  function EarliestIn(t: Tree): Option<int>
    decreases t, 0
  {
    Earlier(Dated(t.deadline), Earliest(t.referenced))
  }

  function Earliest(ts: seq<Tree>): Option<int>
    decreases ts, |ts|
  {
    if ts == [] then None else Earlier(Earliest(ts[..|ts| - 1]), EarliestIn(ts[|ts| - 1]))
  }

  method EarliestWalk(t: Tree, soFar: Option<int>) returns (next: Option<int>)
    ensures next == Earlier(soFar, EarliestIn(t))
    decreases t
  {
    next := soFar;
    if t.deadline.At? && (next.None? || t.deadline.t < next.value) {
      next := Some(t.deadline.t);
    }
    for i := 0 to |t.referenced|
      invariant next == Earlier(Earlier(soFar, Dated(t.deadline)), Earliest(t.referenced[..i]))
    {
      assert t.referenced[..i + 1][..i] == t.referenced[..i];
      next := EarliestWalk(t.referenced[i], next);
    }
    assert t.referenced[..|t.referenced|] == t.referenced;
  }

  method EarliestDeadline(ts: seq<Tree>) returns (next: Option<int>)
    ensures next == Earliest(ts)
  {
    next := None;
    for i := 0 to |ts|
      invariant next == Earliest(ts[..i])
    {
      assert ts[..i + 1][..i] == ts[..i];
      next := EarliestWalk(ts[i], next);
    }
    assert ts[..|ts|] == ts;
  }

  /** Nothing in a copy, or in a sequence of them, has lapsed. */
  predicate NothingDue(next: Option<int>, c: Clock) {
    next.None? || c.now <= next.value
  }

  /** While no deadline inside a copy made earlier has passed, pruning it changes nothing. */
  lemma {:induction false} NotDueUnchanged(g: Graph, r: Ref, visiting: set<Ref>, c: Clock, d: Clock)
    requires !c.allowStale && Later(c, d) && Prune(g, r, visiting, c).Some?
    requires NothingDue(EarliestIn(Prune(g, r, visiting, c).value), d)
    ensures Prune(g, r, visiting, d) == Prune(g, r, visiting, c)
    decreases |g.Keys - visiting|, 0, 0
  {
    Shrinks(g.Keys, visiting, r);
    NotDueAllUnchanged(g, g[r].referenced, visiting + {r}, c, d);
  }

  lemma {:induction false} NotDueAllUnchanged(g: Graph, refs: seq<Ref>, visiting: set<Ref>, c: Clock, d: Clock)
    requires !c.allowStale && Later(c, d)
    requires NothingDue(Earliest(PruneAll(g, refs, visiting, c)), d)
    ensures PruneAll(g, refs, visiting, d) == PruneAll(g, refs, visiting, c)
    decreases |g.Keys - visiting|, 1, |refs|
  {
    if refs != [] {
      var rest, k := refs[..|refs| - 1], refs[|refs| - 1];
      var ts := PruneAll(g, rest, visiting, c);
      var p := Prune(g, k, visiting, c);
      if p.Some? {
        assert (ts + [p.value])[..|ts|] == ts;
        NotDueAllUnchanged(g, rest, visiting, c, d);
        NotDueUnchanged(g, k, visiting, c, d);
      } else {
        assert ts + Kept(p) == ts;
        NotDueAllUnchanged(g, rest, visiting, c, d);
        assert Prune(g, k, visiting, d).None?;
      }
    }
  }

  /** With AllowStale the time plays no part. */
  lemma {:induction false} StaleIgnoresTime(g: Graph, r: Ref, visiting: set<Ref>, c: Clock, d: Clock)
    requires c.allowStale && d.allowStale
    ensures Prune(g, r, visiting, c) == Prune(g, r, visiting, d)
    decreases |g.Keys - visiting|, 0, 0
  {
    if r in g && r !in visiting {
      Shrinks(g.Keys, visiting, r);
      StaleAllIgnoreTime(g, g[r].referenced, visiting + {r}, c, d);
    }
  }

  lemma {:induction false} StaleAllIgnoreTime(g: Graph, refs: seq<Ref>, visiting: set<Ref>, c: Clock, d: Clock)
    requires c.allowStale && d.allowStale
    ensures PruneAll(g, refs, visiting, c) == PruneAll(g, refs, visiting, d)
    decreases |g.Keys - visiting|, 1, |refs|
  {
    if refs != [] {
      StaleAllIgnoreTime(g, refs[..|refs| - 1], visiting, c, d);
      StaleIgnoresTime(g, refs[|refs| - 1], visiting, c, d);
    }
  }

  // ---------------------------------------------------------------- the recomputation

  /** A configured source as fetched: a list and everything it refers to. A local file refers to nothing. */
  datatype Loaded = Loaded(g: Graph, root: Ref)

  function PrunedRoot(l: Loaded, c: Clock): Option<Tree> {
    Prune(l.g, l.root, {}, c)
  }

  /** The live lists, recomputed from what was loaded. */
  function LiveLists(ls: seq<Loaded>, c: Clock): seq<Tree> {
    if ls == [] then [] else LiveLists(ls[..|ls| - 1], c) + Reach(PrunedRoot(ls[|ls| - 1], c))
  }

  function LiveRoots(ls: seq<Loaded>, c: Clock): seq<Tree> {
    if ls == [] then [] else LiveRoots(ls[..|ls| - 1], c) + Kept(PrunedRoot(ls[|ls| - 1], c))
  }

  function CertsOf(ts: seq<Tree>): seq<int> {
    if ts == [] then [] else CertsOf(ts[..|ts| - 1]) + ts[|ts| - 1].certs
  }

  function Pool(certs: seq<int>): set<int> {
    set x | x in certs
  }

  lemma CertsConcat(a: seq<Tree>, b: seq<Tree>)
    ensures CertsOf(a + b) == CertsOf(a) + CertsOf(b)
  {
    if b == [] {
      assert a + b == a;
    } else {
      assert (a + b)[..|a + b| - 1] == a + b[..|b| - 1];
      CertsConcat(a, b[..|b| - 1]);
    }
  }

  lemma PoolConcat(a: seq<int>, b: seq<int>)
    ensures Pool(a + b) == Pool(a) + Pool(b)
  {
  }

  lemma NoCerts()
    ensures CertsOf([]) == [] && Pool([]) == {}
  {
  }

  // ---------------------------------------------------------------- what the roots alone give

  function ListsFromRoots(roots: seq<Tree>, d: Clock): seq<Tree> {
    if roots == [] then [] else ListsFromRoots(roots[..|roots| - 1], d) + Reach(PruneTree(roots[|roots| - 1], d))
  }

  /** One more root, if there is one, is pruned by itself. */
  lemma RootsNext(roots: seq<Tree>, p: Option<Tree>, d: Clock)
    ensures ListsFromRoots(roots + Kept(p), d) == ListsFromRoots(roots, d) + Reach(PruneAgain(p, d))
    ensures PruneTrees(roots + Kept(p), d) == PruneTrees(roots, d) + Kept(PruneAgain(p, d))
  {
    hide PruneTree, Walk;
    if p.Some? {
      assert (roots + [p.value])[..|roots|] == roots;
    } else {
      assert roots + [] == roots;
      assert ListsFromRoots(roots, d) + [] == ListsFromRoots(roots, d);
      assert PruneTrees(roots, d) + [] == PruneTrees(roots, d);
    }
  }

  /** Re-pruning the roots kept so far gives what pruning the loaded lists afresh would. */
  lemma {:induction false} RootsSuffice(ls: seq<Loaded>, c: Clock, d: Clock)
    requires Later(c, d)
    ensures ListsFromRoots(LiveRoots(ls, c), d) == LiveLists(ls, d)
    ensures PruneTrees(LiveRoots(ls, c), d) == LiveRoots(ls, d)
  {
    hide Prune, PruneAgain, Reach, Kept;
    if ls == [] {
      NoRoots(d);
    } else {
      var rest, l := ls[..|ls| - 1], ls[|ls| - 1];
      RootsSuffice(rest, c, d);
      PruneTwice(l.g, l.root, {}, c, d);
      hide PruneTrees, ListsFromRoots;
      RootsNext(LiveRoots(rest, c), PrunedRoot(l, c), d);
    }
  }

  lemma NoRoots(d: Clock)
    ensures ListsFromRoots([], d) == [] && PruneTrees([], d) == []
  {
  }

  lemma NothingDueBoth(a: Option<int>, b: Option<int>, c: Clock)
    ensures NothingDue(Earlier(a, b), c) <==> NothingDue(a, c) && NothingDue(b, c)
  {
  }

  lemma {:induction false} EarliestConcat(a: seq<Tree>, b: seq<Tree>, c: Clock)
    ensures NothingDue(Earliest(a + b), c) <==> NothingDue(Earliest(a), c) && NothingDue(Earliest(b), c)
  {
    if b == [] {
      assert a + b == a;
    } else {
      assert (a + b)[..|a + b| - 1] == a + b[..|b| - 1];
      EarliestConcat(a, b[..|b| - 1], c);
      NothingDueBoth(Earliest(a + b[..|b| - 1]), EarliestIn(b[|b| - 1]), c);
      NothingDueBoth(Earliest(b[..|b| - 1]), EarliestIn(b[|b| - 1]), c);
    }
  }

  /** The early exit is right: before the earliest deadline a recomputation changes nothing. */
  lemma {:induction false} NotDueSame(ls: seq<Loaded>, c: Clock, d: Clock)
    requires !c.allowStale && Later(c, d) && NothingDue(Earliest(LiveLists(ls, c)), d)
    ensures LiveLists(ls, d) == LiveLists(ls, c) && LiveRoots(ls, d) == LiveRoots(ls, c)
  {
    if ls != [] {
      var rest, l := ls[..|ls| - 1], ls[|ls| - 1];
      var p := PrunedRoot(l, c);
      EarliestConcat(LiveLists(rest, c), Reach(p), d);
      NotDueSame(rest, c, d);
      if p.Some? {
        FirstIsCovered(Reach(p), d);
        NotDueUnchanged(l.g, l.root, {}, c, d);
      } else {
        PruneTwice(l.g, l.root, {}, c, d);
      }
    }
  }

  lemma FirstIsCovered(ts: seq<Tree>, d: Clock)
    requires ts != [] && NothingDue(Earliest(ts), d)
    ensures NothingDue(EarliestIn(ts[0]), d)
  {
    assert ts == [ts[0]] + ts[1..];
    EarliestConcat([ts[0]], ts[1..], d);
    assert [ts[0]][..0] == [];
    assert Earliest([ts[0]]) == Earlier(Earliest([ts[0]][..0]), EarliestIn(ts[0]));
  }

  lemma StaleSame(ls: seq<Loaded>, c: Clock, d: Clock)
    requires c.allowStale && d.allowStale
    ensures LiveLists(ls, d) == LiveLists(ls, c) && LiveRoots(ls, d) == LiveRoots(ls, c)
  {
    if ls != [] {
      StaleSame(ls[..|ls| - 1], c, d);
      StaleIgnoresTime(ls[|ls| - 1].g, ls[|ls| - 1].root, {}, c, d);
    }
  }

  // ---------------------------------------------------------------- the registry

  /** The fetching loops of load: every root must be current. */
  method Gather(sources: seq<Loaded>, c: Clock) returns (current: bool, live: seq<Tree>, liveRoots: seq<Tree>)
    ensures current <==> forall i :: 0 <= i < |sources| ==> Live(sources[i].g, sources[i].root, c)
    ensures current ==> live == LiveLists(sources, c) && liveRoots == LiveRoots(sources, c)
  {
    hide Prune, Reach, Fresh;
    live, liveRoots := [], [];
    for i := 0 to |sources|
      invariant live == LiveLists(sources[..i], c) && liveRoots == LiveRoots(sources[..i], c)
      invariant forall j :: 0 <= j < i ==> Live(sources[j].g, sources[j].root, c)
    {
      assert sources[..i + 1][..i] == sources[..i];
      var l := sources[i];
      if !(l.root in l.g && Fresh(l.g[l.root].deadline, c)) {
        return false, [], [];
      }
      RootFirst(l.g, l.root, c);
      ReachStartsWithRoot(l, c);
      var ts := Reachable(l.g, l.root, c);
      live := live + ts;
      liveRoots := liveRoots + [ts[0]];
    }
    assert sources[..|sources|] == sources;
    return true, live, liveRoots;
  }

  class TslRegistry {
    const allowStale: bool
    const bundle: seq<int>         // certificates of the PEM bundle
    var pool: set<int>
    var certCount: nat
    var tsls: seq<Tree>
    var roots: seq<Tree>
    var nextExpiry: Option<int>

    ghost var loaded: seq<Loaded>  // what the last successful load fetched
    ghost var asOf: int            // the clock reading the state was last brought up to

    ghost predicate Valid()
      reads this
    {
      var c := Clock(asOf, allowStale);
      && tsls == LiveLists(loaded, c)
      && roots == LiveRoots(loaded, c)
      && pool == Pool(bundle) + Pool(CertsOf(tsls))
      && certCount == |bundle| + |CertsOf(tsls)|
      && nextExpiry == Earliest(tsls)
    }

    constructor (allowStale: bool, bundle: seq<int>)
      ensures Valid() && loaded == [] && this.allowStale == allowStale && this.bundle == bundle
    {
      this.allowStale, this.bundle := allowStale, bundle;
      pool, certCount := Pool(bundle), |bundle|;
      tsls, roots, nextExpiry := [], [], None;
      loaded, asOf := [], 0;
    }

    /** load, with fetching done: a lapsed root or an empty result is an error and leaves the state alone. */
    method Load(sources: seq<Loaded>, now: int) returns (ok: bool)
      requires Valid()
      modifies this
      ensures Valid()
      ensures ok <==>
                && (forall i :: 0 <= i < |sources| ==> Live(sources[i].g, sources[i].root, Clock(now, allowStale)))
                && |bundle| + |CertsOf(LiveLists(sources, Clock(now, allowStale)))| > 0
      ensures ok ==> loaded == sources && asOf == now
      ensures !ok ==> unchanged(this)
    {
      hide Live, LiveLists, LiveRoots, CertsOf, Pool, Earliest;
      var current, live, liveRoots := Gather(sources, Clock(now, allowStale));
      if !current {
        return false;
      }
      var certs := CertsOf(live);
      if |bundle| + |certs| == 0 {
        return false;
      }
      tsls, roots := live, liveRoots;
      pool, certCount := Pool(bundle) + Pool(certs), |bundle| + |certs|;
      nextExpiry := EarliestDeadline(live);
      loaded, asOf := sources, now;
      return true;
    }

    /** expireStale brings the state to what a recomputation from the loaded lists gives at the current time. */
    method ExpireStale(now: int)
      requires Valid() && asOf <= now
      modifies this
      ensures Valid() && asOf == now && loaded == old(loaded)
    {
      ghost var c, d := Clock(asOf, allowStale), Clock(now, allowStale);
      if allowStale {
        StaleSame(loaded, c, d);
        asOf := now;
        return;
      }
      if nextExpiry.None? || now <= nextExpiry.value {
        NotDueSame(loaded, c, d);
        asOf := now;
        return;
      }
      RootsSuffice(loaded, c, d);
      Rebuild(now);
      loaded, asOf := loaded, now;
    }

    /** The rebuilding half of expireStale, under the write lock. */
    method Rebuild(now: int)
      requires !allowStale
      modifies `pool, `certCount, `tsls, `roots, `nextExpiry
      ensures tsls == ListsFromRoots(old(roots), Clock(now, allowStale))
      ensures roots == PruneTrees(old(roots), Clock(now, allowStale))
      ensures pool == Pool(bundle) + Pool(CertsOf(tsls)) && certCount == |bundle| + |CertsOf(tsls)|
      ensures nextExpiry == Earliest(tsls)
    {
      hide Pool, CertsOf, Earliest, Reach, PruneTree;
      NoCerts();
      var d := Clock(now, allowStale);
      var newPool, count := Pool(bundle), |bundle|;
      var live, liveRoots: seq<Tree> := [], [];
      for i := 0 to |roots|
        invariant unchanged(this)
        invariant live == ListsFromRoots(roots[..i], d) && liveRoots == PruneTrees(roots[..i], d)
        invariant newPool == Pool(bundle) + Pool(CertsOf(live)) && count == |bundle| + |CertsOf(live)|
      {
        assert roots[..i + 1][..i] == roots[..i];
        var ts := ReachableAgain(roots[i], d);
        if ts == [] {
          assert live + [] == live && liveRoots + [] == liveRoots;
          continue;
        }
        CertsConcat(live, ts);
        PoolConcat(CertsOf(live), CertsOf(ts));
        liveRoots := liveRoots + [ts[0]];
        live := live + ts;
        newPool := newPool + Pool(CertsOf(ts));
        count := count + |CertsOf(ts)|;
      }
      assert roots[..|roots|] == roots;
      pool, certCount := newPool, count;
      tsls, roots := live, liveRoots;
      nextExpiry := EarliestDeadline(live);
    }
  }

  lemma ReachStartsWithRoot(l: Loaded, c: Clock)
    requires PrunedRoot(l, c).Some?
    ensures Reach(PrunedRoot(l, c)) != [] && Reach(PrunedRoot(l, c))[0] == PrunedRoot(l, c).value
  {
  }

  method PruneCopy(t: Tree, c: Clock) returns (p: Option<Tree>)
    ensures p == PruneTree(t, c)
    decreases t
  {
    if !Fresh(t.deadline, c) {
      return None;
    }
    var kept: seq<Tree> := [];
    for i := 0 to |t.referenced|
      invariant kept == PruneTrees(t.referenced[..i], c)
    {
      assert t.referenced[..i + 1][..i] == t.referenced[..i];
      var q := PruneCopy(t.referenced[i], c);
      if q.Some? {
        kept := kept + [q.value];
      }
    }
    assert t.referenced[..|t.referenced|] == t.referenced;
    return Some(Node(t.source, t.deadline, t.certs, kept));
  }

  /** reachable, on a root that is itself a copy. */
  method ReachableAgain(root: Tree, c: Clock) returns (out: seq<Tree>)
    ensures out == Reach(PruneTree(root, c))
    ensures PruneTree(root, c).Some? <==> out != []
    ensures out != [] ==> out[0] == PruneTree(root, c).value
  {
    var p := PruneCopy(root, c);
    if p.None? {
      return [];
    }
    var seen: set<string>;
    seen, out := WalkCopies(p.value, {}, []);
  }
}
