/** The LoTE registry over time: refresh, lazy expiry, and the decisions in between. */
module LoteExpiry {
  import opened Options
  import opened LoteIndex
  import opened LoteEvaluate
  import opened LotlResolve
  import opened Sets

  /** A deadline, if there is one, has not passed. */
  predicate Current(now: int, deadline: Option<int>) {
    deadline.None? || now <= deadline.value
  }

  /** A loaded list, and the earlier of its own deadline and the one it inherits. */
  datatype Loaded = Loaded(lote: Lote, deadline: Option<int>)

  /** The lists whose deadline has not passed. */
  ghost function Live(ls: seq<Loaded>, now: int): seq<Lote> {
    if ls == [] then []
    else Live(ls[..|ls| - 1], now) + if Current(now, ls[|ls| - 1].deadline) then [ls[|ls| - 1].lote] else []
  }

  /** The earliest deadline among them. */
  ghost function NextDeadline(ls: seq<Loaded>, now: int): Option<int> {
    if ls == [] then None
    else
      var before := NextDeadline(ls[..|ls| - 1], now);
      if Current(now, ls[|ls| - 1].deadline) then Earliest(before, ls[|ls| - 1].deadline) else before
  }

  ghost function Lotes(ls: seq<Loaded>): seq<Lote> {
    if ls == [] then [] else Lotes(ls[..|ls| - 1]) + [ls[|ls| - 1].lote]
  }

  /** While the earliest deadline has not passed, the same lists are live. */
  lemma {:induction false} NotDueSame(ls: seq<Loaded>, was: int, now: int)
    requires was <= now && Current(now, NextDeadline(ls, was))
    ensures Live(ls, now) == Live(ls, was) && NextDeadline(ls, now) == NextDeadline(ls, was)
  {
    if ls != [] { NotDueSame(ls[..|ls| - 1], was, now); }
  }

  ghost predicate NoneLapsed(ls: seq<Loaded>, now: int) {
    forall l :: l in ls ==> Current(now, l.deadline)
  }

  ghost function EarliestOfAll(ls: seq<Loaded>): Option<int> {
    if ls == [] then None else Earliest(EarliestOfAll(ls[..|ls| - 1]), ls[|ls| - 1].deadline)
  }

  /** While no list has lapsed, all are live. */
  lemma {:induction false} AllLive(ls: seq<Loaded>, now: int)
    requires NoneLapsed(ls, now)
    ensures Live(ls, now) == Lotes(ls) && NextDeadline(ls, now) == EarliestOfAll(ls)
  {
    hide Current;
    if ls != [] { AllLive(ls[..|ls| - 1], now); }
  }

  lemma {:induction false} LiveAreLoaded(ls: seq<Loaded>, now: int, l: Lote)
    ensures l in Live(ls, now) <==> exists x :: x in ls && x.lote == l && Current(now, x.deadline)
  {
    if ls != [] {
      var rest, last := ls[..|ls| - 1], ls[|ls| - 1];
      LiveAreLoaded(rest, now, l);
      assert ls == rest + [last];
    }
  }

  /** As time passes without a refresh, a denial stays a denial, unless the last list of the type that the role names
      lapses while nothing but that list made the name a limit. */
  lemma ExpiryOnlyDenies(rules: Rules, ls: seq<Loaded>, now: int, later: int, req: Request)
    requires now <= later
    requires ScopedByRules(rules, req.role) || (req.role in TypesOf(Live(ls, now)) ==> req.role in TypesOf(Live(ls, later)))
    ensures Decision(rules, Live(ls, later), req) ==> Decision(rules, Live(ls, now), req)
  {
    hide Live, Decision, TypesOf, ScopedByRules;
    forall l | l in Live(ls, later) ensures l in Live(ls, now) {
      LiveAreLoaded(ls, later, l);
      LiveAreLoaded(ls, now, l);
    }
    DroppingListsOnlyDenies(rules, Live(ls, now), Live(ls, later), req);
  }

  // ---------------------------------------------------------------- what a refresh loads

  function LoadedFrom(f: Found): Loaded {
    Loaded(f.document.lote, Earliest(Deadline(f.document.nextUpdate), f.via))
  }

  ghost function AllLoaded(fs: seq<Found>): seq<Loaded> {
    if fs == [] then [] else AllLoaded(fs[..|fs| - 1]) + [LoadedFrom(fs[|fs| - 1])]
  }

  /** A list counts as current exactly when neither its own NextUpdate nor that of any LoTL on the chain it was loaded
      through has passed. */
  lemma CurrentMeansWholeChain(w: World, chain: seq<string>, f: Found, now: int)
    requires Explains(w, chain, f)
    ensures Current(now, LoadedFrom(f).deadline)
       <==> Current(now, Deadline(f.document.nextUpdate))
            && forall x :: x in chain ==> Current(now, Deadline(NextUpdate(w, x)))
  {
    hide IsChain, Due;
    DueIsEarliest(w, chain);
    forall x | x in chain && Deadline(NextUpdate(w, x)).Some? ensures DatedBy(w, chain, Deadline(NextUpdate(w, x)).value) {
    }
  }

  lemma {:induction false} ChainIsFresh(w: World, chain: seq<string>)
    requires IsChain(w, chain) && !w.allowStale
    ensures Current(w.now, Due(w, chain))
  {
    if |chain| > 1 { ChainIsFresh(w, chain[..|chain| - 1]); }
  }

  lemma FoundIsCurrent(w: World, chain: seq<string>, f: Found)
    requires Explains(w, chain, f) && !w.allowStale
    ensures Current(w.now, LoadedFrom(f).deadline)
  {
    hide IsChain, Due;
    ChainIsFresh(w, chain);
  }

  // ---------------------------------------------------------------- directly configured lists

  /** The directly configured sources, and what loading each gives. */
  datatype Direct = Direct(sources: seq<string>, documents: map<string, Document>)

  predicate DirectLoads(w: World, d: Direct, source: string) {
    source in d.documents && Fresh(w.allowStale, w.now, d.documents[source].nextUpdate)
  }

  ghost predicate AllDirectLoad(w: World, d: Direct, n: nat)
    requires n <= |d.sources|
  {
    forall i :: 0 <= i < n ==> DirectLoads(w, d, d.sources[i])
  }

  ghost function DirectFound(w: World, d: Direct, n: nat): seq<Found>
    requires n <= |d.sources| && AllDirectLoad(w, d, n)
  {
    if n == 0 then [] else DirectFound(w, d, n - 1) + [Found(d.documents[d.sources[n - 1]], None)]
  }

  method LoadDirect(w: World, d: Direct) returns (r: Option<seq<Found>>)
    ensures r.Some? <==> AllDirectLoad(w, d, |d.sources|)
    ensures r.Some? ==> r.value == DirectFound(w, d, |d.sources|)
  {
    hide DirectLoads;
    var fs: seq<Found> := [];
    for i := 0 to |d.sources|
      invariant AllDirectLoad(w, d, i) && fs == DirectFound(w, d, i)
    {
      if !DirectLoads(w, d, d.sources[i]) { return None; }
      fs := fs + [Found(DirectDocument(w, d, d.sources[i]), None)];
    }
    return Some(fs);
  }

  function DirectDocument(w: World, d: Direct, source: string): Document
    requires DirectLoads(w, d, source)
  {
    d.documents[source]
  }

  /** Every list of a successful refresh is current at the time of the refresh. */
  ghost predicate AllCurrent(now: int, fs: seq<Found>) {
    forall i :: 0 <= i < |fs| ==> Current(now, LoadedFrom(fs[i]).deadline)
  }

  lemma {:induction false} DirectIsCurrent(w: World, d: Direct, n: nat)
    requires n <= |d.sources| && AllDirectLoad(w, d, n) && !w.allowStale
    ensures AllCurrent(w.now, DirectFound(w, d, n))
  {
    if n > 0 { DirectIsCurrent(w, d, n - 1); }
  }

  lemma DiscoveredIsCurrent(w: World, chains: seq<seq<string>>, fs: seq<Found>)
    requires AllExplained(w, chains, fs) && !w.allowStale
    ensures AllCurrent(w.now, fs)
  {
    hide Explains, Current;
    forall i | 0 <= i < |fs| ensures Current(w.now, LoadedFrom(fs[i]).deadline) {
      FoundIsCurrent(w, chains[i], fs[i]);
    }
  }

  lemma {:induction false} CurrentWhenLoaded(fs: seq<Found>, now: int)
    requires AllCurrent(now, fs)
    ensures NoneLapsed(AllLoaded(fs), now)
  {
    hide Current, LoadedFrom;
    if fs != [] {
      CurrentWhenLoaded(fs[..|fs| - 1], now);
      assert Current(now, LoadedFrom(fs[|fs| - 1]).deadline);
    }
  }

  /** What a refresh read gives: the direct lists, then the discovered ones. */
  ghost predicate RefreshReads(w: World, d: Direct, loaded: seq<Loaded>, fs: seq<Found>, t: Trace) {
    && AllDirectLoad(w, d, |d.sources|)
    && loaded == AllLoaded(DirectFound(w, d, |d.sources|) + fs)
    && AllExplained(w, t.chains, fs)
    && Bag(fs) == Total(w, t.followed).documents
    && Visit(Elements(t.followed), fs, t.cut) == VisitSources(w, |w.sources|)
    && (forall src :: src in w.sources ==> src in t.followed)
    && (FollowedExactlyWithin(w, t.followed) <==> LosesNothing(w, VisitSources(w, |w.sources|)))
    && (DepthSuffices(w) ==> FollowedExactlyWithin(w, t.followed))
  }

  lemma RefreshIsCurrent(w: World, d: Direct, loaded: seq<Loaded>, fs: seq<Found>, t: Trace)
    requires RefreshReads(w, d, loaded, fs, t) && !w.allowStale
    ensures NoneLapsed(loaded, w.now)
  {
    hide DirectFound, AllExplained, Bag, Total, FollowedExactlyWithin, DepthSuffices, LosesNothing, AllLoaded, Current, NoneLapsed, DirectLoads,
         VisitSources;
    DirectIsCurrent(w, d, |d.sources|);
    DiscoveredIsCurrent(w, t.chains, fs);
    CurrentWhenLoaded(DirectFound(w, d, |d.sources|) + fs, w.now);
  }

  /** expireStale's loop. */
  method Sweep(ls: seq<Loaded>, now: int) returns (live: seq<Lote>, next: Option<int>)
    ensures live == Live(ls, now) && next == NextDeadline(ls, now)
  {
    live, next := [], None;
    for i := 0 to |ls|
      invariant live == Live(ls[..i], now) && next == NextDeadline(ls[..i], now)
    {
      assert ls[..i + 1][..i] == ls[..i];
      if Current(now, ls[i].deadline) { live, next := live + [ls[i].lote], Earliest(next, ls[i].deadline); }
    }
    assert ls[..|ls|] == ls;
  }

  /** refresh's last loop. */
  method Assemble(fs: seq<Found>) returns (ls: seq<Loaded>, lotes: seq<Lote>, next: Option<int>)
    ensures ls == AllLoaded(fs) && lotes == Lotes(ls) && next == EarliestOfAll(ls)
  {
    ls, lotes, next := [], [], None;
    for i := 0 to |fs|
      invariant ls == AllLoaded(fs[..i]) && lotes == Lotes(ls) && next == EarliestOfAll(ls)
    {
      assert fs[..i + 1][..i] == fs[..i];
      var l := LoadedFrom(fs[i]);
      assert (ls + [l])[..|ls|] == ls;
      ls, lotes, next := ls + [l], lotes + [l.lote], Earliest(next, l.deadline);
    }
    assert fs[..|fs|] == fs;
  }

  // ---------------------------------------------------------------- the registry

  class Registry {
    const rules: Rules
    const allowStale: bool
    var loaded: seq<Loaded>
    var nextExpiry: Option<int>
    var index: EntityIndex
    /** The last time at which the registry looked at the clock. */
    ghost var asOf: int

    /** The lists that count at a time. */
    ghost function InForce(now: int): seq<Lote>
      reads `loaded
    {
      if allowStale then Lotes(loaded) else Live(loaded, now)
    }

    /** The index is the one built from the lists in force, and the next expiry is their earliest deadline. */
    ghost predicate Valid()
      reads this, index
    {
      && index.Value() == Built(rules.pubEaa, InForce(asOf))
      && (!allowStale ==> nextExpiry == NextDeadline(loaded, asOf))
    }

    constructor (rules: Rules, allowStale: bool, ghost now: int)
      ensures Valid() && this.rules == rules && this.allowStale == allowStale && loaded == [] && asOf == now
    {
      var ix := new EntityIndex();
      this.rules, this.allowStale := rules, allowStale;
      loaded, nextExpiry, index, asOf := [], None, ix, now;
    }

    /** expireStale. However often it has run since the refresh, and whether or not anything was due, the index is the one
        built from exactly the loaded lists that are current now. */
    method ExpireStale(now: int)
      requires Valid() && asOf <= now
      modifies this
      ensures Valid() && asOf == now && loaded == old(loaded)
      ensures index == old(index) || fresh(index)
    {
      hide Built, Live, NextDeadline, Lotes;
      if allowStale {
        asOf := now;
        return;
      }
      if Current(now, nextExpiry) {
        NotDueSame(loaded, asOf, now);
        asOf := now;
        return;
      }
      var live, next := Sweep(loaded, now);
      index := BuildIndex(rules.pubEaa, live);
      nextExpiry := next;
      asOf := now;
    }

    /** refresh. It replaces the lists only when every direct source and every configured LoTL loads. */
    method Refresh(w: World, d: Direct) returns (ok: bool, ghost fs: seq<Found>, ghost t: Trace)
      requires Valid() && asOf <= w.now && w.allowStale == allowStale
      modifies this
      ensures Valid()
      ensures ok <==> AllDirectLoad(w, d, |d.sources|) && !SomeSourceFails(w)
      ensures ok ==> asOf == w.now && RefreshReads(w, d, loaded, fs, t) && InForce(w.now) == Lotes(loaded)
      ensures !ok ==> loaded == old(loaded) && index == old(index) && nextExpiry == old(nextExpiry) && asOf == old(asOf)
    {
      hide Built, Live, NextDeadline, Lotes, AllDirectLoad, DirectFound, SomeSourceFails, NoneLapsed;
      fs, t := [], NO_TRACE;
      var direct := LoadDirect(w, d);
      if direct.None? { return false, fs, t; }
      var discovered, _, trace := Discover(w);
      if discovered.None? { return false, fs, t; }
      fs, t := discovered.value, trace;
      var all, lotes, next := Assemble(direct.value + discovered.value);
      assert RefreshReads(w, d, all, fs, t);
      var ix := BuildIndex(rules.pubEaa, lotes);
      if !allowStale {
        RefreshIsCurrent(w, d, all, fs, t);
        AllLive(all, w.now);
      }
      loaded, nextExpiry, index, asOf := all, next, ix, w.now;
      ok := true;
    }

    /** Evaluate: the decision is that of a linear scan of the lists in force at this moment. */
    method Decide(now: int, req: Request) returns (granted: bool)
      requires Valid() && asOf <= now
      modifies this
      ensures Valid() && asOf == now && loaded == old(loaded)
      ensures granted <==> Decision(rules, InForce(now), req)
    {
      hide Built, Live, Lotes, Decision;
      ExpireStale(now);
      granted := Evaluate(rules, InForce(now), index, req);
    }
  }
}
