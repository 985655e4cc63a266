/** Which lists the LoTE registry goes by at a moment, in terms of what the last refresh read. */
module LoteForce {
  import opened Options
  import opened LoteIndex
  import opened LotlResolve
  import opened LotlMeaning
  import opened LoteExpiry

  /** The list is directly configured. */
  ghost predicate FromSource(d: Direct, x: Document) {
    exists src :: src in d.sources && src in d.documents && d.documents[src] == x
  }

  /** The list was discovered, at this place of what was found. */
  ghost predicate FoundAt(fs: seq<Found>, i: nat, x: Document) {
    i < |fs| && fs[i].document == x
  }

  /** The list is one of those that were read, and has not lapsed: a configured one by its own NextUpdate, a discovered one by
      its own or that of a LoTL on the chain through which it was loaded. */
  ghost predicate Counts(w: World, d: Direct, fs: seq<Found>, t: Trace, now: int, x: Document)
    requires |t.chains| == |fs|
  {
    || (FromSource(d, x) && StillUp(w, [], x, now))
    || exists i: nat :: FoundAt(fs, i, x) && StillUp(w, t.chains[i], x, now)
  }

  lemma {:induction false} LotesMeaning(ls: seq<Loaded>, l: Lote)
    ensures l in Lotes(ls) <==> exists x :: x in ls && x.lote == l
  {
    if ls != [] {
      LotesMeaning(ls[..|ls| - 1], l);
      assert ls == ls[..|ls| - 1] + [ls[|ls| - 1]];
    }
  }

  lemma {:induction false} AllLoadedMeaning(fs: seq<Found>, x: Loaded)
    ensures x in AllLoaded(fs) <==> exists f :: f in fs && LoadedFrom(f) == x
  {
    hide LoadedFrom;
    if fs != [] {
      AllLoadedMeaning(fs[..|fs| - 1], x);
      assert fs == fs[..|fs| - 1] + [fs[|fs| - 1]];
    }
  }

  lemma {:induction false} DirectMeaning(w: World, d: Direct, n: nat, f: Found)
    requires n <= |d.sources| && AllDirectLoad(w, d, n)
    ensures f in DirectFound(w, d, n) <==> exists i :: 0 <= i < n && f == Found(d.documents[d.sources[i]], None)
  {
    if n > 0 { DirectMeaning(w, d, n - 1, f); }
  }

  /** A configured list is loaded when it is there and not out of date. */
  lemma DirectLoadsMeaning(w: World, d: Direct, source: string)
    ensures DirectLoads(w, d, source) <==> source in d.documents && NotStale(w, d.documents[source].nextUpdate)
  {
    if source in d.documents { NotStaleMeaning(w, d.documents[source].nextUpdate); }
  }

  lemma DirectUp(w: World, x: Document, now: int)
    ensures Current(now, LoadedFrom(Found(x, None)).deadline) <==> StillUp(w, [], x, now)
  {
  }

  lemma FoundUp(w: World, chain: seq<string>, f: Found, now: int)
    requires Explains(w, chain, f)
    ensures Current(now, LoadedFrom(f).deadline) <==> StillUp(w, chain, f.document, now)
  {
    hide Explains, LoadedFrom;
    CurrentMeansWholeChain(w, chain, f, now);
    forall x
      ensures Current(now, Deadline(NextUpdate(w, x))) <==> forall t :: x in w.lotls && w.lotls[x].nextUpdate == At(t) ==> now <= t
    {
    }
  }

  lemma ReadMeaning(w: World, d: Direct, loaded: seq<Loaded>, fs: seq<Found>, t: Trace, x: Loaded)
    requires RefreshReads(w, d, loaded, fs, t)
    ensures x in loaded <==>
              || (exists y :: FromSource(d, y) && LoadedFrom(Found(y, None)) == x)
              || exists f :: f in fs && LoadedFrom(f) == x
  {
    hide LoadedFrom, AllLoaded, DirectFound, DirectLoads;
    AllLoadedMeaning(DirectFound(w, d, |d.sources|) + fs, x);
    forall f: Found ensures f in DirectFound(w, d, |d.sources|) <==> exists y :: FromSource(d, y) && f == Found(y, None) {
      DirectMeaning(w, d, |d.sources|, f);
      DirectIsThere(w, d);
      if y :| FromSource(d, y) && f == Found(y, None) {
        var src :| src in d.sources && src in d.documents && d.documents[src] == y;
        var i :| 0 <= i < |d.sources| && d.sources[i] == src;
      }
    }
  }

  lemma DirectIsThere(w: World, d: Direct)
    requires AllDirectLoad(w, d, |d.sources|)
    ensures forall src :: src in d.sources ==> src in d.documents
  {
  }

  /** A loaded list that has not lapsed is one that counts. */
  lemma LoadedCounts(w: World, d: Direct, loaded: seq<Loaded>, fs: seq<Found>, t: Trace, now: int, y: Loaded) returns (x: Document)
    requires RefreshReads(w, d, loaded, fs, t) && y in loaded
    ensures |t.chains| == |fs| && x.lote == y.lote && (FromSource(d, x) || exists i: nat :: FoundAt(fs, i, x))
    ensures Current(now, y.deadline) ==> Counts(w, d, fs, t, now, x)
  {
    hide Explains, Current, StillUp, FromSource, DirectFound, AllLoaded;
    ReadMeaning(w, d, loaded, fs, t, y);
    if x' :| FromSource(d, x') && LoadedFrom(Found(x', None)) == y {
      x := x';
      DirectUp(w, x, now);
    } else {
      var f :| f in fs && LoadedFrom(f) == y;
      var i :| 0 <= i < |fs| && fs[i] == f;
      x := f.document;
      FoundUp(w, t.chains[i], f, now);
      assert FoundAt(fs, i, x);
    }
  }

  /** And the other way round. */
  lemma CountsIsLoaded(w: World, d: Direct, loaded: seq<Loaded>, fs: seq<Found>, t: Trace, now: int, x: Document, up: bool)
    returns (y: Loaded)
    requires RefreshReads(w, d, loaded, fs, t) && |t.chains| == |fs|
    requires if up then Counts(w, d, fs, t, now, x) else FromSource(d, x) || exists i: nat :: FoundAt(fs, i, x)
    ensures y in loaded && y.lote == x.lote && (up ==> Current(now, y.deadline))
  {
    hide Explains, Current, StillUp, FromSource, DirectFound, AllLoaded;
    if FromSource(d, x) && (up ==> StillUp(w, [], x, now)) {
      y := LoadedFrom(Found(x, None));
      DirectUp(w, x, now);
    } else {
      var i: nat :| FoundAt(fs, i, x) && (up ==> StillUp(w, t.chains[i], x, now));
      y := LoadedFrom(fs[i]);
      FoundUp(w, t.chains[i], fs[i], now);
    }
    ReadMeaning(w, d, loaded, fs, t, y);
  }

  /** At any moment after a successful refresh the lists in force are those read that have not lapsed; with AllowStale, all. */
  lemma ForceMeaning(r: Registry, w: World, d: Direct, fs: seq<Found>, t: Trace, now: int, l: Lote)
    requires RefreshReads(w, d, r.loaded, fs, t)
    ensures |t.chains| == |fs|
    ensures !r.allowStale ==> (l in r.InForce(now) <==> exists x: Document :: x.lote == l && Counts(w, d, fs, t, now, x))
    ensures r.allowStale ==>
              (l in r.InForce(now) <==> exists x: Document :: x.lote == l && (FromSource(d, x) || exists i: nat :: FoundAt(fs, i, x)))
  {
    var up := !r.allowStale;
    LotesMeaning(r.loaded, l);
    LiveAreLoaded(r.loaded, now, l);
    assert |t.chains| == |fs|;
    hide RefreshReads, Counts, FromSource, Live, Lotes, Current, FoundAt;
    if y :| y in r.loaded && y.lote == l && (up ==> Current(now, y.deadline)) {
      var x := LoadedCounts(w, d, r.loaded, fs, t, now, y);
    }
    if x: Document :| x.lote == l
                      && if up then Counts(w, d, fs, t, now, x) else FromSource(d, x) || exists i: nat :: FoundAt(fs, i, x) {
      var y := CountsIsLoaded(w, d, r.loaded, fs, t, now, x, up);
    }
  }
}
