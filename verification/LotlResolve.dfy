/** Resolution of lists of trusted lists (LoTLs): a depth-first walk over pointers, shared by all configured sources. */
module LotlResolve {
  import opened Options
  import opened LoteIndex
  import opened Sets

  // ---------------------------------------------------------------- documents

  /** The NextUpdate text of a document. The zero time reads as no date, so it is Undated. */
  datatype Stamp = Undated | Unparseable | At(time: int)

  datatype Kind = ToLotl | ToLote | ToClassic

  datatype Pointer = Pointer(location: string, kind: Kind)

  datatype Lotl = Lotl(schemeType: string, nextUpdate: Stamp, pointers: seq<Pointer>)

  datatype Document = Document(lote: Lote, nextUpdate: Stamp)

  /** The configuration, the time, and what fetching, verifying and parsing each location gives during one refresh. A
      location that is missing fails to load. */
  datatype World = World(maxDepth: int, allowStale: bool, now: int, sources: seq<string>,
                         lotls: map<string, Lotl>, targets: map<Pointer, seq<Document>>)

  /** A discovered list and the deadline it inherits; None is no deadline. */
  datatype Found = Found(document: Document, via: Option<int>)

  /** listDeadline, with its error dropped. */
  function Deadline(s: Stamp): Option<int> {
    if s.At? then Some(s.time) else None
  }

  function Earliest(a: Option<int>, b: Option<int>): Option<int> {
    if a.None? then b
    else if b.None? then a
    else if b.value < a.value then b
    else a
  }

  /** checkFresh succeeds. */
  predicate Fresh(allowStale: bool, now: int, s: Stamp) {
    allowStale || s.Undated? || (s.At? && now <= s.time)
  }

  /** loadLoTL succeeds. */
  predicate Loads(w: World, location: string) {
    location in w.lotls && w.lotls[location].schemeType != "" && Fresh(w.allowStale, w.now, w.lotls[location].nextUpdate)
  }

  function NextUpdate(w: World, location: string): Stamp {
    if location in w.lotls then w.lotls[location].nextUpdate else Undated
  }

  function Pointers(w: World, location: string): seq<Pointer> {
    if location in w.lotls then w.lotls[location].pointers else []
  }

  /** The target of a pointer to a list loads, and every list in it is current. */
  predicate TargetLoads(w: World, p: Pointer) {
    p in w.targets && forall i :: 0 <= i < |w.targets[p]| ==> Fresh(w.allowStale, w.now, w.targets[p][i].nextUpdate)
  }

  // ---------------------------------------------------------------- chains

  ghost predicate PointsTo(w: World, from: string, to: string) {
    to != "" && Pointer(to, ToLotl) in Pointers(w, from)
  }

  /** LoTLs that load, from a configured source on, each pointed to by the one before. */
  ghost predicate IsChain(w: World, chain: seq<string>)
    decreases |chain|, 0
  {
    if chain == [] then false
    else
      var last := chain[|chain| - 1];
      Loads(w, last) && Leads(w, chain[..|chain| - 1], last)
  }

  /** The location is a configured source, or the last of the chain points to it. */
  ghost predicate Leads(w: World, chain: seq<string>, location: string)
    decreases |chain|, 1
  {
    if chain == [] then location in w.sources
    else IsChain(w, chain) && PointsTo(w, chain[|chain| - 1], location)
  }

  ghost predicate Reachable(w: World, location: string) {
    exists chain :: Ends(w, chain, location)
  }

  ghost predicate Ends(w: World, chain: seq<string>, location: string) {
    IsChain(w, chain) && chain[|chain| - 1] == location
  }

  /** The deadline a chain passes on. */
  ghost function Due(w: World, chain: seq<string>): Option<int> {
    if chain == [] then None
    else Earliest(Due(w, chain[..|chain| - 1]), Deadline(NextUpdate(w, chain[|chain| - 1])))
  }

  ghost predicate DatedBy(w: World, chain: seq<string>, t: int) {
    exists location :: location in chain && NextUpdate(w, location) == At(t)
  }

  /** It is the earliest NextUpdate among the dated LoTLs of the chain, and there is none exactly when none is dated. */
  lemma {:induction false} DueIsEarliest(w: World, chain: seq<string>)
    ensures Due(w, chain).Some? ==> DatedBy(w, chain, Due(w, chain).value)
    ensures forall t :: DatedBy(w, chain, t) ==> Due(w, chain).Some? && Due(w, chain).value <= t
  {
    if chain != [] {
      var rest, last := chain[..|chain| - 1], chain[|chain| - 1];
      DueIsEarliest(w, rest);
      assert forall location :: location in chain <==> location in rest || location == last by {
        assert chain == rest + [last];
      }
      forall t ensures DatedBy(w, chain, t) <==> DatedBy(w, rest, t) || NextUpdate(w, last) == At(t) {
      }
    }
  }

  /** Some chain to the location keeps to the depth limit, if there is one. */
  ghost predicate Within(w: World, location: string) {
    exists chain :: Ends(w, chain, location) && KeepsToLimit(w, chain)
  }

  ghost predicate KeepsToLimit(w: World, chain: seq<string>) {
    w.maxDepth > 0 ==> |chain| <= w.maxDepth
  }

  /** A chain without repetitions uses up the limit, and its last LoTL points to one that is not on it. */
  ghost predicate CutAt(w: World, chain: seq<string>, location: string) {
    && w.maxDepth > 0 && |chain| == w.maxDepth
    && IsChain(w, chain) && NoDuplicates(chain)
    && PointsTo(w, chain[|chain| - 1], location) && location !in chain
  }

  /** A walk may be at the limit when it meets the location, whatever the order of pointers. */
  ghost predicate MayBeCut(w: World, location: string) {
    exists chain :: CutAt(w, chain, location)
  }

  /** No LoTL that may be cut off could also be reached within the limit. */
  ghost predicate DepthSuffices(w: World) {
    forall location :: MayBeCut(w, location) && Loads(w, location) ==> !Within(w, location)
  }

  /** No chain without repetitions is longer than the limit, if there is one: it never cuts anything off. */
  ghost predicate NoLongChain(w: World) {
    w.maxDepth <= 0 || forall chain :: IsChain(w, chain) && NoDuplicates(chain) ==> |chain| <= w.maxDepth
  }

  lemma LongerChain(w: World, chain: seq<string>, location: string)
    requires CutAt(w, chain, location) && Loads(w, location)
    ensures !NoLongChain(w)
  {
    hide Loads, PointsTo;
    ChainExtends(w, chain, location);
    var longer := chain + [location];
    assert IsChain(w, longer) && NoDuplicates(longer) && |longer| > w.maxDepth;
  }

  lemma NoLongChainSuffices(w: World)
    requires NoLongChain(w)
    ensures DepthSuffices(w)
  {
    hide Loads, PointsTo;
    forall chain, location ensures !(CutAt(w, chain, location) && Loads(w, location)) {
      if CutAt(w, chain, location) && Loads(w, location) {
        LongerChain(w, chain, location);
      }
    }
  }

  /** A limit that is at least the number of LoTLs cuts nothing off. */
  lemma ManyLevelsSuffice(w: World)
    requires |w.lotls| <= w.maxDepth
    ensures NoLongChain(w) && DepthSuffices(w)
  {
    forall chain | IsChain(w, chain) && NoDuplicates(chain) ensures |chain| <= w.maxDepth {
      DistinctSize(chain);
      ChainLoads(w, chain);
      assert Elements(chain) <= w.lotls.Keys;
      SubsetIsSmaller(Elements(chain), w.lotls.Keys);
    }
    NoLongChainSuffices(w);
  }

  /** A chain that returns to a location can be cut short there. */
  lemma {:induction false} Shorten(w: World, chain: seq<string>) returns (short: seq<string>)
    requires IsChain(w, chain)
    ensures Ends(w, short, chain[|chain| - 1]) && NoDuplicates(short) && |short| <= |chain|
  {
    hide Loads, PointsTo;
    var before, last := chain[..|chain| - 1], chain[|chain| - 1];
    if before == [] { return chain; }
    var s := Shorten(w, before);
    if last in s {
      var k :| 0 <= k < |s| && s[k] == last;
      PartIsChain(w, s, k + 1);
      return s[..k + 1];
    }
    ChainExtends(w, s, last);
    return s + [last];
  }

  lemma {:induction false} PartIsChain(w: World, chain: seq<string>, n: nat)
    requires IsChain(w, chain) && 0 < n <= |chain|
    ensures IsChain(w, chain[..n])
  {
    hide Loads, PointsTo;
    if n == |chain| {
      assert chain[..n] == chain;
    } else {
      PartIsChain(w, chain[..|chain| - 1], n);
      assert chain[..|chain| - 1][..n] == chain[..n];
    }
  }

  /** Where the limit never cuts anything off, it takes nothing out of reach. */
  lemma WithinIsReachable(w: World, location: string)
    requires NoLongChain(w)
    ensures Within(w, location) <==> Reachable(w, location)
  {
    hide IsChain;
    if chain :| Ends(w, chain, location) {
      var short := Shorten(w, chain);
      assert Ends(w, short, location);
      assert KeepsToLimit(w, short);
    }
  }

  lemma {:induction false} ChainLoads(w: World, chain: seq<string>)
    requires IsChain(w, chain)
    ensures forall x :: x in chain ==> Loads(w, x)
  {
    hide Loads, PointsTo;
    var rest := chain[..|chain| - 1];
    if rest != [] { ChainLoads(w, rest); }
    assert chain == rest + [chain[|chain| - 1]];
  }

  // ---------------------------------------------------------------- the walk as a function

  /** The LoTLs visited when a part of the walk ends, the lists it found, in order, and the locations that the limit turned away. */
  datatype Visit = Visit(visited: set<string>, found: seq<Found>, cut: set<string>)

  ghost function VisitLotl(w: World, location: string, depth: nat, via: Option<int>, visited: set<string>): (v: Visit)
    ensures visited <= v.visited
    decreases w.lotls.Keys - visited, 0, 0
  {
    if w.maxDepth > 0 && depth >= w.maxDepth then Visit(visited, [], {location})
    else if location in visited || !Loads(w, location) then Visit(visited, [], {})
    else
      VisitPointers(w, Pointers(w, location), |Pointers(w, location)|, depth,
                    Earliest(via, Deadline(NextUpdate(w, location))), visited + {location})
  }

  ghost function VisitPointers(w: World, ps: seq<Pointer>, n: nat, depth: nat, via: Option<int>, visited: set<string>): (v: Visit)
    requires n <= |ps|
    ensures visited <= v.visited
    decreases w.lotls.Keys - visited, 2, n
  {
    if n == 0 then Visit(visited, [], {})
    else
      var before := VisitPointers(w, ps, n - 1, depth, via, visited);
      var last := VisitPointer(w, ps[n - 1], depth, via, before.visited);
      Visit(last.visited, before.found + last.found, before.cut + last.cut)
  }

  ghost function VisitPointer(w: World, p: Pointer, depth: nat, via: Option<int>, visited: set<string>): (v: Visit)
    ensures visited <= v.visited
    decreases w.lotls.Keys - visited, 1, 0
  {
    if p.location == "" then Visit(visited, [], {})
    else if p.kind.ToLotl? then VisitLotl(w, p.location, depth + 1, via, visited)
    else Visit(visited, if TargetLoads(w, p) then AllFound(w.targets[p], via) else [], {})
  }

  ghost function AllFound(ds: seq<Document>, via: Option<int>): seq<Found> {
    seq(|ds|, i requires 0 <= i < |ds| => Found(ds[i], via))
  }

  /** The walk from the first n sources. */
  ghost function VisitSources(w: World, n: nat): Visit
    requires n <= |w.sources|
  {
    if n == 0 then Visit({}, [], {})
    else
      var before := VisitSources(w, n - 1);
      var last := VisitLotl(w, w.sources[n - 1], 0, None, before.visited);
      Visit(last.visited, before.found + last.found, before.cut + last.cut)
  }

  // ---------------------------------------------------------------- what was discovered

  ghost predicate PointsToDocument(w: World, from: string, d: Document) {
    exists p :: p in Pointers(w, from) && p.location != "" && !p.kind.ToLotl? && TargetLoads(w, p) && d in w.targets[p]
  }

  /** A list was loaded through this chain, and inherits the chain's deadline. */
  ghost predicate Explains(w: World, chain: seq<string>, f: Found) {
    && IsChain(w, chain)
    && KeepsToLimit(w, chain)
    && PointsToDocument(w, chain[|chain| - 1], f.document)
    && f.via == Due(w, chain)
  }

  /** Every list is explained by the chain at its place. */
  ghost predicate AllExplained(w: World, chains: seq<seq<string>>, fs: seq<Found>) {
    |chains| == |fs| && forall i :: 0 <= i < |fs| ==> Explains(w, chains[i], fs[i])
  }

  /** Lists loaded, and pointers that failed. */
  datatype Tally = Tally(documents: multiset<Document>, failed: nat)

  const NOTHING := Tally(multiset{}, 0)

  function Plus(a: Tally, b: Tally): Tally {
    Tally(a.documents + b.documents, a.failed + b.failed)
  }

  lemma PlusNothing(a: Tally)
    ensures Plus(NOTHING, a) == a
  {
    assert multiset{} + a.documents == a.documents;
  }

  /** What one pointer yields by itself, without the LoTL it may lead to. */
  ghost function PointerTally(w: World, p: Pointer): Tally {
    if p.location == "" then NOTHING
    else if p.kind.ToLotl? then Tally(multiset{}, if Loads(w, p.location) then 0 else 1)
    else if TargetLoads(w, p) then Tally(multiset(w.targets[p]), 0)
    else Tally(multiset{}, 1)
  }

  ghost function PointersTally(w: World, ps: seq<Pointer>): Tally {
    if ps == [] then NOTHING else Plus(PointersTally(w, ps[..|ps| - 1]), PointerTally(w, ps[|ps| - 1]))
  }

  /** What a sequence of LoTLs yields, each counted as often as it occurs. */
  ghost function Total(w: World, locations: seq<string>): Tally {
    if locations == [] then NOTHING
    else Plus(Total(w, locations[..|locations| - 1]), PointersTally(w, Pointers(w, locations[|locations| - 1])))
  }

  lemma {:induction false} TotalConcat(w: World, a: seq<string>, b: seq<string>)
    ensures Total(w, a + b) == Plus(Total(w, a), Total(w, b))
  {
    hide PointersTally, Pointers;
    if b == [] {
      assert a + b == a;
    } else {
      assert (a + b)[..|a + b| - 1] == a + b[..|b| - 1];
      TotalConcat(w, a, b[..|b| - 1]);
    }
  }

  ghost function Bag(fs: seq<Found>): multiset<Document> {
    if fs == [] then multiset{} else Bag(fs[..|fs| - 1]) + multiset{fs[|fs| - 1].document}
  }

  lemma {:induction false} BagConcat(a: seq<Found>, b: seq<Found>)
    ensures Bag(a + b) == Bag(a) + Bag(b)
  {
    if b == [] {
      assert a + b == a;
    } else {
      assert (a + b)[..|a + b| - 1] == a + b[..|b| - 1];
      BagConcat(a, b[..|b| - 1]);
    }
  }

  /** Every LoTL in s has had its pointers to loadable LoTLs followed, or cut off. */
  ghost predicate ClosedBut(w: World, s: seq<string>, visited: set<string>, cut: set<string>) {
    forall x, y :: x in s && PointsTo(w, x, y) && Loads(w, y) ==> y in visited || y in cut
  }

  ghost predicate AllWithin(w: World, s: seq<string>) {
    forall x :: x in s ==> Within(w, x)
  }

  /** Nothing is turned away that is not visited already, or on the far side of a chain that uses up the limit. */
  ghost predicate CutsExplained(w: World, cut: set<string>, visited: set<string>) {
    forall y :: y in cut ==> y in visited || MayBeCut(w, y)
  }

  /** What following the LoTLs in s has done to the visited set. */
  ghost predicate Followed(w: World, before: set<string>, after: set<string>, s: seq<string>, cut: set<string>) {
    && after == before + Elements(s)
    && NoDuplicates(s)
    && (forall x :: x in s ==> x !in before)
    && AllWithin(w, s)
    && ClosedBut(w, s, after, cut)
    && CutsExplained(w, cut, after)
  }

  /** What a part of the walk did: the LoTLs followed, in order, the chain each list was loaded through, and the locations
      that the limit turned away. */
  datatype Trace = Trace(followed: seq<string>, chains: seq<seq<string>>, cut: set<string>)

  const NO_TRACE := Trace([], [], {})

  function Join(a: Trace, b: Trace): Trace {
    Trace(a.followed + b.followed, a.chains + b.chains, a.cut + b.cut)
  }

  /** The state of a resolution. */
  datatype Progress = Progress(visited: set<string>, skipped: nat)

  /** The tally is what was found and what was skipped; without a depth limit nothing is left out of it. */
  ghost predicate Adds(w: World, before: nat, after: nat, tally: Tally, fs: seq<Found>) {
    Bag(fs) == tally.documents && (w.maxDepth <= 0 ==> after == before + tally.failed)
  }

  /** A part of the walk is fully accounted for: its trace followed what it says, each list found is explained by a chain,
      and lists and failures are those of the LoTLs followed and of own, the pointers considered beside them. */
  ghost predicate Accounts(w: World, before: Progress, after: Progress, own: Tally, fs: seq<Found>, t: Trace) {
    && Followed(w, before.visited, after.visited, t.followed, t.cut)
    && AllExplained(w, t.chains, fs)
    && Adds(w, before.skipped, after.skipped, Plus(own, Total(w, t.followed)), fs)
  }

  lemma FollowedConcat(w: World, before: set<string>, middle: set<string>, after: set<string>, s: seq<string>, c: set<string>,
                       t: seq<string>, d: set<string>)
    requires Followed(w, before, middle, s, c) && Followed(w, middle, after, t, d)
    ensures Followed(w, before, after, s + t, c + d)
  {
    hide PointsTo, Loads, Within, MayBeCut;
    assert forall x :: x in s + t <==> x in s || x in t;
    assert Elements(s + t) == Elements(s) + Elements(t);
    forall i, j | 0 <= i < j < |s + t| ensures (s + t)[i] != (s + t)[j] {
      if i < |s| <= j { assert s[i] in middle && t[j - |s|] !in middle; }
    }
  }

  /** The LoTL that was entered first comes in front, once all its pointers have been followed. */
  lemma FollowedFirst(w: World, before: set<string>, after: set<string>, location: string, s: seq<string>, cut: set<string>)
    requires location !in before && Within(w, location) && Followed(w, before + {location}, after, s, cut)
    requires ClosedBut(w, [location], after, cut)
    ensures Followed(w, before, after, [location] + s, cut)
  {
    hide PointsTo, Loads, Within, MayBeCut;
    assert forall x :: x in [location] + s <==> x == location || x in s;
    assert Elements([location] + s) == {location} + Elements(s);
  }

  lemma ExplainedConcat(w: World, cs: seq<seq<string>>, fs: seq<Found>, ds: seq<seq<string>>, gs: seq<Found>)
    requires AllExplained(w, cs, fs) && AllExplained(w, ds, gs)
    ensures AllExplained(w, cs + ds, fs + gs)
  {
    hide Explains;
  }

  lemma AccountsNothing(w: World, p: Progress)
    ensures Accounts(w, p, p, NOTHING, [], NO_TRACE)
  {
  }

  lemma AccountsJoin(w: World, before: Progress, middle: Progress, after: Progress, a: Tally, fs: seq<Found>, t: Trace,
                     b: Tally, gs: seq<Found>, u: Trace)
    requires Accounts(w, before, middle, a, fs, t) && Accounts(w, middle, after, b, gs, u)
    ensures Accounts(w, before, after, Plus(a, b), fs + gs, Join(t, u))
  {
    hide Followed, AllExplained, Bag, Total;
    FollowedConcat(w, before.visited, middle.visited, after.visited, t.followed, t.cut, u.followed, u.cut);
    ExplainedConcat(w, t.chains, fs, u.chains, gs);
    BagConcat(fs, gs);
    TotalConcat(w, t.followed, u.followed);
  }

  /** A LoTL whose pointers have all been followed, put in front of what they led to. */
  lemma AccountsFirst(w: World, before: Progress, after: Progress, location: string, fs: seq<Found>, t: Trace)
    requires location !in before.visited && Within(w, location)
    requires Accounts(w, before.(visited := before.visited + {location}), after, PointersTally(w, Pointers(w, location)), fs, t)
    requires ClosedBut(w, [location], after.visited, t.cut)
    ensures Accounts(w, before, after, NOTHING, fs, t.(followed := [location] + t.followed))
  {
    hide Followed, AllExplained, Bag, PointersTally, ClosedBut, Within, Pointers;
    FollowedFirst(w, before.visited, after.visited, location, t.followed, t.cut);
    TotalConcat(w, [location], t.followed);
    assert Total(w, [location]) == Plus(Total(w, []), PointersTally(w, Pointers(w, location))) by {
      assert [location][..0] == [];
    }
  }

  lemma TurnedAway(w: World, trail: seq<string>, location: string, visited: set<string>)
    requires 0 < w.maxDepth == |trail| && Leads(w, trail, location) && OnTheWay(trail, visited)
    ensures CutsExplained(w, {location}, visited)
  {
    assert forall x :: x in trail ==> x in Elements(trail);
    assert location !in visited ==> CutAt(w, trail, location);
  }

  /** A location the limit turns away, at the end of a trail that uses it up. */
  lemma AccountsCut(w: World, p: Progress, trail: seq<string>, location: string)
    requires 0 < w.maxDepth == |trail| && Leads(w, trail, location) && OnTheWay(trail, p.visited)
    ensures Accounts(w, p, p, NOTHING, [], Trace([], [], {location}))
  {
    TurnedAway(w, trail, location, p.visited);
    hide Leads, CutsExplained, OnTheWay;
  }

  /** Every pointer to a LoTL that loads has been followed, or cut off. */
  ghost predicate PointersDone(w: World, ps: seq<Pointer>, visited: set<string>, cut: set<string>) {
    forall p :: p in ps && p.kind.ToLotl? && p.location != "" && Loads(w, p.location) ==> p.location in visited || p.location in cut
  }

  lemma PointersDoneMeansClosed(w: World, location: string, visited: set<string>, cut: set<string>)
    requires PointersDone(w, Pointers(w, location), visited, cut)
    ensures ClosedBut(w, [location], visited, cut)
  {
    hide Loads, Pointers;
  }

  lemma NoPointersDone(w: World, visited: set<string>)
    ensures PointersDone(w, [], visited, {}) && PointersTally(w, []) == NOTHING
  {
  }

  lemma PointersDoneExtends(w: World, ps: seq<Pointer>, k: nat, before: set<string>, c: set<string>, after: set<string>, d: set<string>)
    requires k < |ps| && before <= after
    requires PointersDone(w, ps[..k], before, c) && PointersDone(w, [ps[k]], after, d)
    ensures PointersDone(w, ps[..k + 1], after, c + d)
  {
    assert ps[..k + 1] == ps[..k] + [ps[k]];
  }

  /** The LoTLs on the way are visited, and different. */
  ghost predicate OnTheWay(trail: seq<string>, visited: set<string>) {
    NoDuplicates(trail) && Elements(trail) <= visited
  }

  lemma EntersTheWay(trail: seq<string>, visited: set<string>, location: string)
    requires OnTheWay(trail, visited) && location !in visited
    ensures OnTheWay(trail + [location], visited + {location})
  {
    ElementsAppend(trail, location);
    assert forall i :: 0 <= i < |trail| ==> trail[i] in Elements(trail);
  }

  lemma StaysOnTheWay(trail: seq<string>, visited: set<string>, more: set<string>)
    requires OnTheWay(trail, visited) && visited <= more
    ensures OnTheWay(trail, more)
  {
  }

  lemma ChainExtends(w: World, trail: seq<string>, location: string)
    requires Leads(w, trail, location) && Loads(w, location)
    ensures IsChain(w, trail + [location]) && Ends(w, trail + [location], location)
    ensures Due(w, trail + [location]) == Earliest(Due(w, trail), Deadline(NextUpdate(w, location)))
  {
    hide Loads, Leads;
    assert (trail + [location])[..|trail|] == trail;
  }

  /** The lists of one loaded target all inherit the deadline of the chain. */
  lemma {:induction false} TargetExplained(w: World, chain: seq<string>, p: Pointer, ds: seq<Document>, via: Option<int>,
                                           fs: seq<Found>, chains: seq<seq<string>>)
    requires IsChain(w, chain) && KeepsToLimit(w, chain) && via == Due(w, chain)
    requires p in Pointers(w, chain[|chain| - 1]) && p.location != "" && !p.kind.ToLotl? && TargetLoads(w, p)
    requires forall d :: d in ds ==> d in w.targets[p]
    requires |fs| == |chains| == |ds|
    requires forall i :: 0 <= i < |ds| ==> fs[i] == Found(ds[i], via) && chains[i] == chain
    ensures AllExplained(w, chains, fs) && Bag(fs) == multiset(ds)
  {
    assert chain != [] && p in w.targets;
    hide IsChain, Due, Loads, TargetLoads, Pointers;
    forall i | 0 <= i < |fs| ensures Explains(w, chains[i], fs[i]) {
      assert fs[i].document in w.targets[p];
      assert PointsToDocument(w, chain[|chain| - 1], fs[i].document);
    }
    if ds != [] {
      var n := |ds| - 1;
      TargetExplained(w, chain, p, ds[..n], via, fs[..n], chains[..n]);
      assert ds == ds[..n] + [ds[n]];
    }
  }

  /** Only LoTLs that load are ever marked visited. */
  ghost predicate AllLoad(w: World, visited: set<string>) {
    forall x :: x in visited ==> Loads(w, x)
  }

  lemma FailureVisitsNothing(w: World, location: string, depth: nat, via: Option<int>, visited: set<string>)
    requires !Loads(w, location) && (w.maxDepth > 0 ==> depth < w.maxDepth)
    ensures VisitLotl(w, location, depth, via, visited) == Visit(visited, [], {})
  {
  }

  lemma AccountsFailure(w: World, p: Progress, own: Tally)
    requires own == Tally(multiset{}, 1)
    ensures Accounts(w, p, p.(skipped := p.skipped + 1), own, [], NO_TRACE)
  {
  }

  lemma AccountsNested(w: World, before: Progress, after: Progress, p: Pointer, fs: seq<Found>, t: Trace)
    requires Accounts(w, before, after, NOTHING, fs, t) && p.location != "" && p.kind.ToLotl?
    requires w.maxDepth <= 0 ==> Loads(w, p.location)
    ensures Accounts(w, before, after, PointerTally(w, p), fs, t)
  {
    hide Followed, AllExplained, Loads, Total;
  }

  lemma AccountsTarget(w: World, now: Progress, chain: seq<string>, p: Pointer, via: Option<int>, fs: seq<Found>, t: Trace)
    requires IsChain(w, chain) && KeepsToLimit(w, chain) && via == Due(w, chain)
    requires p in Pointers(w, chain[|chain| - 1]) && p.location != "" && !p.kind.ToLotl? && TargetLoads(w, p)
    requires fs == AllFound(w.targets[p], via) && |t.chains| == |fs| && t.followed == [] && t.cut == {}
    requires forall i :: 0 <= i < |fs| ==> t.chains[i] == chain
    ensures Accounts(w, now, now, PointerTally(w, p), fs, t)
  {
    TargetExplained(w, chain, p, w.targets[p], via, fs, t.chains);
    hide IsChain, Due, AllExplained, Bag, Pointers, TargetLoads;
  }

  // ---------------------------------------------------------------- the code

  /** The loop that records what a loaded target's lists inherit, and stops at the first stale one. */
  method LoadTarget(w: World, p: Pointer, via: Option<int>) returns (r: Option<seq<Found>>)
    ensures r.Some? <==> TargetLoads(w, p)
    ensures r.Some? ==> r.value == AllFound(w.targets[p], via)
  {
    hide Fresh;
    if p !in w.targets { return None; }
    var ds := w.targets[p];
    var fs: seq<Found> := [];
    for i := 0 to |ds|
      invariant |fs| == i
      invariant forall k :: 0 <= k < i ==> Fresh(w.allowStale, w.now, ds[k].nextUpdate) && fs[k] == Found(ds[k], via)
    {
      if !Fresh(w.allowStale, w.now, ds[i].nextUpdate) { return None; }
      fs := fs + [Found(ds[i], via)];
    }
    return Some(fs);
  }

  /** resolveState. */
  class Resolution {
    var visited: set<string>
    var skipped: nat

    constructor ()
      ensures visited == {} && skipped == 0
    {
      visited, skipped := {}, 0;
    }

    ghost function Now(): Progress
      reads this
    {
      Progress(visited, skipped)
    }

    /** resolveLoTL, reached along the trail. */
    method ResolveLotl(w: World, location: string, depth: nat, via: Option<int>, ghost trail: seq<string>)
      returns (r: Option<seq<Found>>, ghost t: Trace)
      requires Leads(w, trail, location) && |trail| == depth && via == Due(w, trail) && KeepsToLimit(w, trail)
      requires AllLoad(w, visited) && OnTheWay(trail, visited)
      modifies this
      ensures old(visited) <= visited && AllLoad(w, visited)
      ensures r.Some? ==> Accounts(w, old(Now()), Now(), NOTHING, r.value, t)
      ensures r.Some? ==> Visit(visited, r.value, t.cut) == VisitLotl(w, location, depth, via, old(visited))
      ensures r.Some? && (w.maxDepth <= 0 || depth < w.maxDepth) ==> location in visited
      ensures r.Some? ==> location in visited || location in t.cut
      ensures r.None? ==> Now() == old(Now()) && location !in visited && !Loads(w, location) && (w.maxDepth > 0 ==> depth < w.maxDepth)
      decreases w.lotls.Keys - visited, 0
    {
      hide IsChain, Leads, Due, Accounts, ClosedBut, OnTheWay, VisitPointers;
      AccountsNothing(w, Now());
      t := NO_TRACE;
      if w.maxDepth > 0 && depth >= w.maxDepth {
        AccountsCut(w, Now(), trail, location);
        return Some([]), Trace([], [], {location});
      }
      if location in visited { return Some([]), t; }
      if !Loads(w, location) { return None, t; }
      ChainExtends(w, trail, location);
      assert KeepsToLimit(w, trail + [location]);
      EntersTheWay(trail, visited, location);
      visited := visited + {location};
      var found, inner := FollowPointers(w, location, depth, Earliest(via, Deadline(w.lotls[location].nextUpdate)), trail + [location]);
      AccountsFirst(w, old(Now()), Now(), location, found, inner);
      return Some(found), inner.(followed := [location] + inner.followed);
    }

    /** The loop over a LoTL's pointers. */
    method FollowPointers(w: World, location: string, depth: nat, via: Option<int>, ghost here: seq<string>)
      returns (found: seq<Found>, ghost t: Trace)
      requires Ends(w, here, location) && |here| == depth + 1 && via == Due(w, here)
      requires KeepsToLimit(w, here)
      requires AllLoad(w, visited) && OnTheWay(here, visited)
      modifies this
      ensures old(visited) <= visited && AllLoad(w, visited)
      ensures Accounts(w, old(Now()), Now(), PointersTally(w, Pointers(w, location)), found, t)
      ensures Visit(visited, found, t.cut)
           == VisitPointers(w, Pointers(w, location), |Pointers(w, location)|, depth, via, old(visited))
      ensures ClosedBut(w, [location], visited, t.cut)
      decreases w.lotls.Keys - visited, 2
    {
      hide Ends, Due, Accounts, PointersDone, PointerTally, Pointers, ClosedBut, OnTheWay, VisitPointer;
      var ps := Pointers(w, location);
      found, t := [], NO_TRACE;
      assert ps[..0] == [];
      AccountsNothing(w, Now());
      NoPointersDone(w, visited);
      for k := 0 to |ps|
        invariant old(visited) <= visited && AllLoad(w, visited)
        invariant Accounts(w, old(Now()), Now(), PointersTally(w, ps[..k]), found, t)
        invariant Visit(visited, found, t.cut) == VisitPointers(w, ps, k, depth, via, old(visited))
        invariant PointersDone(w, ps[..k], visited, t.cut)
      {
        assert ps[..k + 1][..k] == ps[..k];
        StaysOnTheWay(here, old(visited), visited);
        ghost var middle := Now();
        var out, more := ResolvePointer(w, location, ps[k], depth, via, here);
        AccountsJoin(w, old(Now()), middle, Now(), PointersTally(w, ps[..k]), found, t, PointerTally(w, ps[k]), out, more);
        PointersDoneExtends(w, ps, k, middle.visited, t.cut, visited, more.cut);
        found, t := found + out, Join(t, more);
      }
      assert ps[..|ps|] == ps;
      PointersDoneMeansClosed(w, location, visited, t.cut);
    }

    /** resolvePointer. */
    method ResolvePointer(w: World, ghost location: string, p: Pointer, depth: nat, via: Option<int>, ghost here: seq<string>)
      returns (out: seq<Found>, ghost t: Trace)
      requires Ends(w, here, location) && |here| == depth + 1 && via == Due(w, here) && p in Pointers(w, location)
      requires KeepsToLimit(w, here)
      requires AllLoad(w, visited) && OnTheWay(here, visited)
      modifies this
      ensures old(visited) <= visited && AllLoad(w, visited)
      ensures Accounts(w, old(Now()), Now(), PointerTally(w, p), out, t)
      ensures Visit(visited, out, t.cut) == VisitPointer(w, p, depth, via, old(visited))
      ensures PointersDone(w, [p], visited, t.cut)
      decreases w.lotls.Keys - visited, 1
    {
      hide Due, Accounts, Explains, Pointers, IsChain, Loads, OnTheWay, VisitLotl;
      out, t := [], NO_TRACE;
      AccountsNothing(w, Now());
      if p.location == "" { return; }
      if p.kind.ToLotl? {
        var r;
        r, t := ResolveLotl(w, p.location, depth + 1, via, here);
        if r.None? {
          FailureVisitsNothing(w, p.location, depth + 1, via, visited);
          AccountsFailure(w, Now(), PointerTally(w, p));
          t := NO_TRACE;
          skipped := skipped + 1;
        } else {
          out := r.value;
          AccountsNested(w, old(Now()), Now(), p, out, t);
        }
      } else {
        var r := LoadTarget(w, p, via);
        if r.None? {
          AccountsFailure(w, Now(), PointerTally(w, p));
          skipped := skipped + 1;
        } else {
          out := r.value;
          t := NO_TRACE.(chains := seq(|out|, _ => here));
          AccountsTarget(w, Now(), here, p, via, out, t);
        }
      }
    }
  }

  // ---------------------------------------------------------------- all configured LoTLs

  /** None of the locations that the limit turned away is a LoTL within it that was not visited from elsewhere. */
  ghost predicate LosesNothing(w: World, v: Visit) {
    forall y :: y in v.cut && Loads(w, y) && Within(w, y) ==> y in v.visited
  }

  /** Following every pointer of every LoTL followed, from every source, reaches everything within the limit, unless the limit
      turned some of it away. */
  lemma {:induction false} FollowedCoversWithin(w: World, s: seq<string>, v: Visit, chain: seq<string>)
    requires ClosedBut(w, s, v.visited, v.cut) && v.visited <= Elements(s) && LosesNothing(w, v)
    requires forall src :: src in w.sources ==> src in v.visited
    requires IsChain(w, chain) && KeepsToLimit(w, chain)
    ensures chain[|chain| - 1] in v.visited
  {
    hide Loads, PointsTo;
    var before := chain[..|chain| - 1];
    if before != [] {
      FollowedCoversWithin(w, s, v, before);
      assert Ends(w, chain, chain[|chain| - 1]);
    }
  }

  /** The LoTLs followed are exactly those within the limit, each once. */
  ghost predicate FollowedExactlyWithin(w: World, followed: seq<string>) {
    NoDuplicates(followed) && forall x :: x in followed <==> Within(w, x)
  }

  /** The walk follows exactly the LoTLs within the limit if and only if it loses none where it turns back. */
  lemma AllFollowed(w: World, v: Visit, followed: seq<string>)
    requires Followed(w, {}, v.visited, followed, v.cut)
    requires forall src :: src in w.sources ==> src in v.visited
    ensures FollowedExactlyWithin(w, followed) <==> LosesNothing(w, v)
  {
    hide ClosedBut, IsChain, NoDuplicates, Loads, KeepsToLimit;
    assert forall x :: x in v.visited <==> x in followed;
    if LosesNothing(w, v) {
      forall x | Within(w, x) ensures x in followed {
        var chain :| Ends(w, chain, x) && KeepsToLimit(w, chain);
        FollowedCoversWithin(w, followed, v, chain);
      }
    }
  }

  /** In whatever order it meets the pointers. */
  lemma SufficientDepth(w: World, v: Visit)
    requires DepthSuffices(w) && CutsExplained(w, v.cut, v.visited)
    ensures LosesNothing(w, v)
  {
    hide Loads, Within, MayBeCut;
  }

  /** Where the limit cuts nothing off, that is everything reachable. */
  lemma FollowedIsReachable(w: World, followed: seq<string>)
    requires NoLongChain(w) && FollowedExactlyWithin(w, followed)
    ensures forall x :: x in followed <==> Reachable(w, x)
  {
    hide NoLongChain, Within, Reachable;
    forall x ensures x in followed <==> Reachable(w, x) {
      WithinIsReachable(w, x);
    }
  }

  ghost predicate SourcesVisited(w: World, n: nat, visited: set<string>)
    requires n <= |w.sources|
  {
    forall k :: 0 <= k < n ==> w.sources[k] in visited
  }

  ghost predicate SomeSourceFails(w: World) {
    exists src :: src in w.sources && !Loads(w, src)
  }

  lemma NothingVisited(w: World)
    ensures SourcesVisited(w, 0, {}) && AllLoad(w, {})
  {
  }

  lemma SourceFails(w: World, src: string)
    requires src in w.sources && !Loads(w, src)
    ensures SomeSourceFails(w)
  {
  }

  lemma NextSourceVisited(w: World, n: nat, before: set<string>, after: set<string>)
    requires n < |w.sources| && SourcesVisited(w, n, before) && before <= after && w.sources[n] in after
    ensures SourcesVisited(w, n + 1, after)
  {
  }

  lemma NoSourceFails(w: World, visited: set<string>)
    requires SourcesVisited(w, |w.sources|, visited) && AllLoad(w, visited)
    ensures !SomeSourceFails(w)
  {
    hide Loads;
  }

  lemma StartsAtSource(w: World, location: string)
    requires location in w.sources
    ensures Leads(w, [], location) && Due(w, []) == None && KeepsToLimit(w, []) && forall v :: OnTheWay([], v)
  {
  }

  lemma AccountsNext(w: World, before: Progress, middle: Progress, after: Progress, fs: seq<Found>, t: Trace,
                     gs: seq<Found>, u: Trace)
    requires Accounts(w, before, middle, NOTHING, fs, t) && Accounts(w, middle, after, NOTHING, gs, u)
    ensures Accounts(w, before, after, NOTHING, fs + gs, Join(t, u))
  {
    hide Accounts, Plus;
    AccountsJoin(w, before, middle, after, NOTHING, fs, t, NOTHING, gs, u);
    PlusNothing(NOTHING);
  }

  lemma DiscoverSummary(w: World, end: Progress, found: seq<Found>, t: Trace)
    requires Accounts(w, Progress({}, 0), end, NOTHING, found, t)
    requires SourcesVisited(w, |w.sources|, end.visited)
    ensures AllExplained(w, t.chains, found) && Bag(found) == Total(w, t.followed).documents
    ensures Elements(t.followed) == end.visited && NoDuplicates(t.followed) && AllWithin(w, t.followed)
    ensures forall src :: src in w.sources ==> src in t.followed
    ensures FollowedExactlyWithin(w, t.followed) <==> LosesNothing(w, Visit(end.visited, found, t.cut))
    ensures DepthSuffices(w) ==> FollowedExactlyWithin(w, t.followed)
    ensures w.maxDepth <= 0 ==> DepthSuffices(w) && end.skipped == Total(w, t.followed).failed
  {
    assert {} + Elements(t.followed) == Elements(t.followed);
    forall src | src in w.sources ensures src in t.followed {
      assert src in Elements(t.followed);
    }
    if w.maxDepth <= 0 { NoLongChainSuffices(w); }
    hide FollowedExactlyWithin, AllExplained, Bag, Total, Plus, DepthSuffices, LosesNothing;
    PlusNothing(Total(w, t.followed));
    var v := Visit(end.visited, found, t.cut);
    AllFollowed(w, v, t.followed);
    if DepthSuffices(w) { SufficientDepth(w, v); }
  }

  /** The part of refresh that resolves the configured LoTLs. */
  method Discover(w: World) returns (r: Option<seq<Found>>, skipped: nat, ghost t: Trace)
    ensures r.None? <==> SomeSourceFails(w)
    ensures r.Some? ==> AllExplained(w, t.chains, r.value) && Bag(r.value) == Total(w, t.followed).documents
    ensures r.Some? ==> forall src :: src in w.sources ==> src in t.followed
    ensures r.Some? ==> NoDuplicates(t.followed) && AllWithin(w, t.followed)
    ensures r.Some? ==> Visit(Elements(t.followed), r.value, t.cut) == VisitSources(w, |w.sources|)
    ensures r.Some? ==> (FollowedExactlyWithin(w, t.followed) <==> LosesNothing(w, VisitSources(w, |w.sources|)))
    ensures r.Some? && DepthSuffices(w) ==> FollowedExactlyWithin(w, t.followed)
    ensures r.Some? && w.maxDepth <= 0 ==> DepthSuffices(w) && skipped == Total(w, t.followed).failed
  {
    hide VisitLotl, OnTheWay, DepthSuffices, NoDuplicates, AllWithin, LosesNothing;
    hide Loads, AllLoad, Accounts, Leads, Due, AllExplained, Bag, Total, FollowedExactlyWithin, SourcesVisited, SomeSourceFails,
         KeepsToLimit;
    var res := new Resolution();
    var found: seq<Found>;
    found, t := [], NO_TRACE;
    AccountsNothing(w, res.Now());
    NothingVisited(w);
    for i := 0 to |w.sources|
      invariant fresh(res) && AllLoad(w, res.visited)
      invariant Accounts(w, Progress({}, 0), res.Now(), NOTHING, found, t)
      invariant SourcesVisited(w, i, res.visited)
      invariant Visit(res.visited, found, t.cut) == VisitSources(w, i)
    {
      ghost var middle := res.Now();
      StartsAtSource(w, w.sources[i]);
      var out, more := res.ResolveLotl(w, w.sources[i], 0, None, []);
      if out.None? {
        SourceFails(w, w.sources[i]);
        return None, 0, t;
      }
      NextSourceVisited(w, i, middle.visited, res.visited);
      AccountsNext(w, Progress({}, 0), middle, res.Now(), found, t, out.value, more);
      found, t := found + out.value, Join(t, more);
    }
    NoSourceFails(w, res.visited);
    DiscoverSummary(w, res.Now(), found, t);
    return Some(found), res.skipped, t;
  }

  // ---------------------------------------------------------------- what is found does not depend on the order

  lemma PlusShuffle(a: Tally, x: Tally, b: Tally)
    ensures Plus(Plus(a, x), b) == Plus(Plus(a, b), x)
  {
    assert a.documents + x.documents + b.documents == a.documents + b.documents + x.documents;
  }

  /** A LoTL can be counted last, wherever it was followed. */
  lemma CountLast(w: World, s: seq<string>, k: nat)
    requires k < |s|
    ensures Total(w, s) == Plus(Total(w, s[..k] + s[k + 1..]), Total(w, [s[k]]))
  {
    hide Total, Plus;
    assert s == s[..k] + [s[k]] + s[k + 1..];
    TotalConcat(w, s[..k] + [s[k]], s[k + 1..]);
    TotalConcat(w, s[..k], [s[k]]);
    TotalConcat(w, s[..k], s[k + 1..]);
    PlusShuffle(Total(w, s[..k]), Total(w, [s[k]]), Total(w, s[k + 1..]));
  }

  lemma {:induction false} TotalIgnoresOrder(w: World, s: seq<string>, t: seq<string>)
    requires NoDuplicates(s) && NoDuplicates(t) && Elements(s) == Elements(t)
    ensures Total(w, s) == Total(w, t)
  {
    hide Total, Plus;
    if s == [] {
      ElementsEmpty(t);
    } else {
      var n := |s| - 1;
      assert s[n] in Elements(t);
      var k :| 0 <= k < |t| && t[k] == s[n];
      RemoveAt(s, n);
      RemoveAt(t, k);
      hide NoDuplicates, Elements;
      assert s[..n] + s[n + 1..] == s[..n];
      TotalIgnoresOrder(w, s[..n], t[..k] + t[k + 1..]);
      CountLast(w, s, n);
      CountLast(w, t, k);
    }
  }

  lemma {:induction false} ChainIgnoresOrder(w: World, sources: seq<string>, chain: seq<string>)
    requires Elements(sources) == Elements(w.sources)
    ensures IsChain(w, chain) == IsChain(w.(sources := sources), chain)
    decreases |chain|
  {
    hide Elements;
    if |chain| > 1 {
      ChainIgnoresOrder(w, sources, chain[..|chain| - 1]);
    } else if |chain| == 1 {
      SourceIgnoresOrder(w, sources, chain[0]);
    }
  }

  lemma SourceIgnoresOrder(w: World, sources: seq<string>, location: string)
    requires Elements(sources) == Elements(w.sources)
    ensures location in w.sources <==> location in sources
  {
    assert location in w.sources <==> location in Elements(w.sources);
    assert location in sources <==> location in Elements(sources);
  }

  lemma {:induction false} TotalIgnoresSources(w: World, sources: seq<string>, s: seq<string>)
    ensures Total(w, s) == Total(w.(sources := sources), s)
  {
    if s != [] {
      TotalIgnoresSources(w, sources, s[..|s| - 1]);
      PointersIgnoreSources(w, sources, Pointers(w, s[|s| - 1]));
    }
  }

  lemma {:induction false} PointersIgnoreSources(w: World, sources: seq<string>, ps: seq<Pointer>)
    ensures PointersTally(w, ps) == PointersTally(w.(sources := sources), ps)
  {
    if ps != [] { PointersIgnoreSources(w, sources, ps[..|ps| - 1]); }
  }

  /** The lists that are discovered, and how many pointers are skipped, do not depend on the order in which the sources are
      configured. */
  lemma DiscoveryIgnoresOrder(w: World, sources: seq<string>, s: seq<string>, t: seq<string>)
    requires Elements(sources) == Elements(w.sources)
    requires FollowedExactlyWithin(w, s) && FollowedExactlyWithin(w.(sources := sources), t)
    ensures Total(w, s) == Total(w.(sources := sources), t)
  {
    hide Total, NoDuplicates, IsChain;
    forall x ensures x in s <==> x in t {
      if x in s {
        var chain :| Ends(w, chain, x) && KeepsToLimit(w, chain);
        ChainIgnoresOrder(w, sources, chain);
        assert Ends(w.(sources := sources), chain, x) && KeepsToLimit(w.(sources := sources), chain);
      }
      if x in t {
        var chain :| Ends(w.(sources := sources), chain, x) && KeepsToLimit(w.(sources := sources), chain);
        ChainIgnoresOrder(w, sources, chain);
        assert Ends(w, chain, x) && KeepsToLimit(w, chain);
      }
    }
    assert Elements(s) == Elements(t);
    TotalIgnoresOrder(w, s, t);
    TotalIgnoresSources(w, sources, t);
  }
}
