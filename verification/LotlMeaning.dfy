/** What resolving LoTLs comes to, in terms of what each location holds. */
module LotlMeaning {
  import opened Options
  import opened LoteIndex
  import opened LotlResolve

  /** A document that is not out of date: any will do with AllowStale; one without a NextUpdate; one whose NextUpdate can be read
      and has not passed. */
  ghost predicate NotStale(w: World, s: Stamp) {
    w.allowStale || s == Undated || exists t :: s == At(t) && t >= w.now
  }

  /** The location holds a LoTL with a scheme type that is not out of date. */
  ghost predicate Holds(w: World, x: string) {
    x in w.lotls && |w.lotls[x].schemeType| > 0 && NotStale(w, w.lotls[x].nextUpdate)
  }

  /** Such locations, from a configured source on, each the target of a LoTL pointer of the one before. */
  ghost predicate IsRoute(w: World, chain: seq<string>) {
    && chain != [] && chain[0] in w.sources
    && (forall i :: 0 <= i < |chain| ==> Holds(w, chain[i]))
    && (forall i :: 0 < i < |chain| ==> chain[i] != "" && Pointer(chain[i], ToLotl) in w.lotls[chain[i - 1]].pointers)
  }

  lemma NotStaleMeaning(w: World, s: Stamp)
    ensures Fresh(w.allowStale, w.now, s) <==> NotStale(w, s)
  {
    if s.At? { assert s == At(s.time); }
  }

  lemma HoldsMeaning(w: World, x: string)
    ensures Loads(w, x) <==> Holds(w, x)
  {
    if x in w.lotls { NotStaleMeaning(w, w.lotls[x].nextUpdate); }
  }

  /** A route can be extended by what its last LoTL points to. */
  lemma RouteExtends(w: World, before: seq<string>, last: string)
    requires before != []
    ensures IsRoute(w, before + [last])
       <==> IsRoute(w, before) && Holds(w, last) && PointsTo(w, before[|before| - 1], last)
  {
    var chain := before + [last];
    assert forall i :: 0 <= i < |before| ==> chain[i] == before[i];
    assert chain[|before|] == last && chain[|before| - 1] == before[|before| - 1];
  }

  lemma {:induction false} ChainIsRoute(w: World, chain: seq<string>)
    ensures IsChain(w, chain) <==> IsRoute(w, chain)
  {
    hide PointsTo;
    if chain != [] {
      var before, last := chain[..|chain| - 1], chain[|chain| - 1];
      HoldsMeaning(w, last);
      hide Holds, Loads;
      assert chain == before + [last];
      if before == [] {
        assert chain == [last];
      } else {
        ChainIsRoute(w, before);
        RouteExtends(w, before, last);
        hide IsRoute;
      }
    }
  }

  // ---------------------------------------------------------------- lists

  /** The LoTL at x has a pointer, not to a LoTL, whose target loads with all its lists up to date, d among them. */
  ghost predicate ListedAt(w: World, x: string, d: Document) {
    x in w.lotls && exists p :: p in w.lotls[x].pointers && Delivers(w, p) && d in w.targets[p]
  }

  ghost predicate Delivers(w: World, p: Pointer) {
    && p.location != "" && p.kind in {ToLote, ToClassic}
    && p in w.targets && forall d :: d in w.targets[p] ==> NotStale(w, d.nextUpdate)
  }

  lemma DeliversMeaning(w: World, p: Pointer)
    ensures p.location != "" && !p.kind.ToLotl? && TargetLoads(w, p) <==> Delivers(w, p)
  {
    hide NotStale, Fresh;
    forall s ensures Fresh(w.allowStale, w.now, s) <==> NotStale(w, s) { NotStaleMeaning(w, s); }
  }

  lemma ListedMeaning(w: World, x: string, d: Document)
    ensures PointsToDocument(w, x, d) <==> ListedAt(w, x, d)
  {
    hide Delivers, TargetLoads;
    TargetsAreThere(w);
    forall p: Pointer ensures p.location != "" && !p.kind.ToLotl? && TargetLoads(w, p) <==> Delivers(w, p) {
      DeliversMeaning(w, p);
    }
  }

  lemma TargetsAreThere(w: World)
    ensures forall p :: TargetLoads(w, p) || Delivers(w, p) ==> p in w.targets
  {
  }

  /** A LoTL pointer fails when its target does not hold a LoTL, another pointer when it does not deliver; a pointer without a
      location never fails. */
  ghost predicate PointerFails(w: World, p: Pointer) {
    p.location != "" && if p.kind == ToLotl then !Holds(w, p.location) else !Delivers(w, p)
  }

  /** One pointer adds the lists it delivers, or one failure. */
  lemma PointerAdds(w: World, p: Pointer)
    ensures PointerTally(w, p) == Tally(if Delivers(w, p) then multiset(w.targets[p]) else multiset{}, if PointerFails(w, p) then 1 else 0)
  {
    hide TargetLoads, Delivers, Loads, Holds;
    DeliversMeaning(w, p);
    HoldsMeaning(w, p.location);
    TargetsAreThere(w);
    assert Delivers(w, p) ==> !p.kind.ToLotl? && p.location != "";
  }

  lemma {:induction false} PointersAdd(w: World, a: seq<Pointer>, b: seq<Pointer>)
    ensures PointersTally(w, a + b) == Plus(PointersTally(w, a), PointersTally(w, b))
  {
    hide PointerTally;
    if b == [] {
      assert a + b == a;
    } else {
      assert (a + b)[..|a + b| - 1] == a + b[..|b| - 1];
      PointersAdd(w, a, b[..|b| - 1]);
    }
  }

  // ---------------------------------------------------------------- what was discovered

  /** The deadline of a list that was loaded along a chain has not passed: neither its own, nor that of any LoTL on the chain. */
  ghost predicate StillUp(w: World, chain: seq<string>, d: Document, now: int) {
    && (forall t :: d.nextUpdate == At(t) ==> now <= t)
    && forall x, t :: x in chain && x in w.lotls && w.lotls[x].nextUpdate == At(t) ==> now <= t
  }

  /** Each list found was loaded along a route within the limit from a location that lists it. */
  lemma ExplainsMeaning(w: World, chain: seq<string>, f: Found)
    requires Explains(w, chain, f)
    ensures IsRoute(w, chain) && ListedAt(w, chain[|chain| - 1], f.document)
    ensures w.maxDepth > 0 ==> |chain| <= w.maxDepth
  {
    hide IsChain, PointsToDocument, ListedAt;
    ChainIsRoute(w, chain);
    ListedMeaning(w, chain[|chain| - 1], f.document);
  }

  /** The LoTLs that a walk may follow: those with such a route to them. */
  lemma WithinMeaning(w: World, x: string)
    ensures Within(w, x) <==>
              exists chain :: IsRoute(w, chain) && chain[|chain| - 1] == x && (w.maxDepth > 0 ==> |chain| <= w.maxDepth)
  {
    hide IsChain;
    if chain :| Ends(w, chain, x) && KeepsToLimit(w, chain) { ChainIsRoute(w, chain); }
    if chain :| IsRoute(w, chain) && chain[|chain| - 1] == x && (w.maxDepth > 0 ==> |chain| <= w.maxDepth) {
      ChainIsRoute(w, chain);
      assert Ends(w, chain, x) && KeepsToLimit(w, chain);
    }
  }
}
