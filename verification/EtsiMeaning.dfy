/** What the state of the ETSI registry says, in terms of the lists that were loaded, their references and deadlines. */
module EtsiMeaning {
  import opened Options
  import opened EtsiReach
  import opened EtsiExact
  import opened EtsiExpiry

  // ---------------------------------------------------------------- trusted lists

  /** The list has no NextUpdate, or one that has not passed; with AllowStale any list will do. */
  ghost predicate Current(l: Tsl, c: Clock) {
    c.allowStale || l.deadline == Absent || exists t :: l.deadline == At(t) && t >= c.now
  }

  /** The lists from the root on, each current and referred to by the one before. */
  ghost predicate Route(l: Loaded, p: seq<Ref>, c: Clock) {
    && p != [] && p[0] == l.root
    && (forall i :: 0 <= i < |p| ==> p[i] in l.g && Current(l.g[p[i]], c))
    && (forall i :: 0 < i < |p| ==> p[i] in l.g[p[i - 1]].referenced)
  }

  /** A list that some route from the root ends in. */
  ghost predicate Trusted(l: Loaded, n: Ref, c: Clock) {
    exists p :: Route(l, p, c) && p[|p| - 1] == n
  }

  /** No two trusted lists carry the same Source. */
  ghost predicate ToldApart(l: Loaded, c: Clock) {
    forall a, b :: Trusted(l, a, c) && Trusted(l, b, c) && l.g[a].source == l.g[b].source ==> a == b
  }

  lemma CurrentMeaning(l: Tsl, c: Clock)
    ensures Fresh(l.deadline, c) <==> Current(l, c)
  {
    if l.deadline.At? { assert l.deadline == At(l.deadline.t); }
  }

  lemma TrustedMeaning(l: Loaded, n: Ref, c: Clock)
    ensures Trusted(l, n, c) <==> n in JoinedSet(l.g, l.root, c)
  {
    hide Fresh, Current;
    forall r | r in l.g ensures Fresh(l.g[r].deadline, c) <==> Current(l.g[r], c) { CurrentMeaning(l.g[r], c); }
    assert Live(l.g, n, c) <==> n in l.g && Current(l.g[n], c);
    if p :| Route(l, p, c) && p[|p| - 1] == n { assert LivePath(l.g, p, c); }
    if Joined(l.g, l.root, n, c) {
      var p :| LivePath(l.g, p, c) && p[0] == l.root && p[|p| - 1] == n;
      assert Route(l, p, c);
    }
  }

  lemma ToldApartMeaning(l: Loaded, c: Clock)
    ensures ToldApart(l, c) <==> SourcesApart(l.g, l.root, c)
  {
    hide Trusted, JoinedSet;
    forall n ensures Trusted(l, n, c) <==> n in JoinedSet(l.g, l.root, c) { TrustedMeaning(l, n, c); }
  }

  // ---------------------------------------------------------------- their certificates

  ghost predicate InSome(ts: seq<Tree>, x: int) {
    exists t :: t in ts && x in t.certs
  }

  lemma {:induction false} CertsMeaning(ts: seq<Tree>, x: int)
    ensures x in CertsOf(ts) <==> InSome(ts, x)
  {
    if ts != [] {
      var before, last := ts[..|ts| - 1], ts[|ts| - 1];
      CertsMeaning(before, x);
      assert forall t :: t in ts <==> t in before || t == last by { assert ts == before + [last]; }
    }
  }

  /** How many certificates the lists have together, one that occurs twice counted twice. */
  ghost function CertTotal(ts: seq<Tree>): nat {
    if ts == [] then 0 else |ts[0].certs| + CertTotal(ts[1..])
  }

  lemma {:induction false} CertCount(ts: seq<Tree>)
    ensures |CertsOf(ts)| == CertTotal(ts)
  {
    if ts != [] {
      CertCount(ts[1..]);
      assert ts == [ts[0]] + ts[1..];
      CertsConcat([ts[0]], ts[1..]);
      assert [ts[0]][..0] == [];
      assert CertsOf([ts[0]]) == ts[0].certs;
    }
  }

  /** A trusted list of the source has the certificate. */
  ghost predicate Offers(l: Loaded, x: int, c: Clock) {
    exists n :: Trusted(l, n, c) && n in l.g && x in l.g[n].certs
  }

  lemma RootOffers(l: Loaded, x: int, c: Clock)
    ensures InSome(Reach(PrunedRoot(l, c)), x) ==> Offers(l, x, c)
    ensures ToldApart(l, c) && Offers(l, x, c) ==> InSome(Reach(PrunedRoot(l, c)), x)
  {
    hide Trusted, JoinedSet, Reach, Prune;
    var out := Reach(PrunedRoot(l, c));
    WalkReturnsJoined(l.g, l.root, c);
    if t :| t in out && x in t.certs {
      var i :| 0 <= i < |out| && out[i] == t;
      assert HasName(l.g, l.root, c, out[i]);
      var n :| Named(l.g, l.root, c, t, n);
      TrustedMeaning(l, n, c);
    }
    if ToldApart(l, c) && Offers(l, x, c) {
      var n :| Trusted(l, n, c) && n in l.g && x in l.g[n].certs;
      TrustedMeaning(l, n, c);
      ToldApartMeaning(l, c);
      WalkReturnsAll(l.g, l.root, c, n);
    }
  }

  lemma {:induction false} ListsOffer(ls: seq<Loaded>, x: int, c: Clock)
    ensures InSome(LiveLists(ls, c), x) <==> exists l :: l in ls && InSome(Reach(PrunedRoot(l, c)), x)
  {
    hide Reach, PrunedRoot, InSome;
    if ls == [] {
      NoneOffer(x);
    } else {
      var before, last := ls[..|ls| - 1], ls[|ls| - 1];
      ListsOffer(before, x, c);
      EitherOffers(LiveLists(before, c), Reach(PrunedRoot(last, c)), x);
      assert forall l :: l in ls <==> l in before || l == last by { assert ls == before + [last]; }
    }
  }

  lemma NoneOffer(x: int)
    ensures !InSome([], x)
  {
  }

  lemma EitherOffers(a: seq<Tree>, b: seq<Tree>, x: int)
    ensures InSome(a + b, x) <==> InSome(a, x) || InSome(b, x)
  {
    assert forall t :: t in a + b <==> t in a || t in b;
  }

  // ---------------------------------------------------------------- the state

  /** The certificates trusted at a time are those of the bundle and, as far as the lists are told apart, of the trusted lists;
      the count is of all certificates of the bundle and the live lists. */
  lemma StateMeaning(r: TslRegistry, x: int)
    requires r.Valid()
    ensures var c := Clock(r.asOf, r.allowStale);
            && (x in r.pool ==> x in r.bundle || exists l :: l in r.loaded && Offers(l, x, c))
            && ((forall l :: l in r.loaded ==> ToldApart(l, c)) ==>
                  (x in r.bundle || (exists l :: l in r.loaded && Offers(l, x, c)) ==> x in r.pool))
            && r.certCount == |r.bundle| + CertTotal(r.tsls)
            && (x in r.pool <==> x in r.bundle || InSome(r.tsls, x))
  {
    hide Reach, PrunedRoot, InSome, Offers, ToldApart;
    var c := Clock(r.asOf, r.allowStale);
    CertsMeaning(r.tsls, x);
    CertCount(r.tsls);
    ListsOffer(r.loaded, x, c);
    forall l | l in r.loaded
      ensures InSome(Reach(PrunedRoot(l, c)), x) ==> Offers(l, x, c)
      ensures ToldApart(l, c) && Offers(l, x, c) ==> InSome(Reach(PrunedRoot(l, c)), x)
    {
      RootOffers(l, x, c);
    }
  }

  lemma {:induction false} NoTotal(ts: seq<Tree>)
    ensures CertTotal(ts) == 0 <==> forall x :: !InSome(ts, x)
  {
    if ts != [] {
      NoTotal(ts[1..]);
      assert ts == [ts[0]] + ts[1..];
      forall x ensures InSome(ts, x) <==> x in ts[0].certs || InSome(ts[1..], x) {
        EitherOffers([ts[0]], ts[1..], x);
        assert InSome([ts[0]], x) <==> x in ts[0].certs by { assert ts[0] in [ts[0]]; }
      }
      if ts[0].certs != [] {
        var x := ts[0].certs[0];
        assert x in ts[0].certs && InSome(ts, x);
      }
    }
  }

  /** What a load asks for: every configured list is current, and there is a certificate. */
  lemma LoadMeaning(sources: seq<Loaded>, bundle: seq<int>, c: Clock)
    ensures (forall i :: 0 <= i < |sources| ==> Live(sources[i].g, sources[i].root, c))
       <==> forall l :: l in sources ==> l.root in l.g && Current(l.g[l.root], c)
    ensures |bundle| + |CertsOf(LiveLists(sources, c))| > 0
       <==> bundle != [] || exists x :: InSome(LiveLists(sources, c), x)
  {
    hide Current, Fresh, LiveLists;
    forall l: Loaded | l.root in l.g ensures Fresh(l.g[l.root].deadline, c) <==> Current(l.g[l.root], c) {
      CurrentMeaning(l.g[l.root], c);
    }
    CertCount(LiveLists(sources, c));
    NoTotal(LiveLists(sources, c));
  }

  // ---------------------------------------------------------------- the next deadline

  /** The list, or one that its copy still refers to, has the deadline. */
  ghost predicate HasDeadline(t: Tree, d: int)
    decreases t, 0
  {
    t.deadline == At(d) || SomeHasDeadline(t.referenced, d)
  }

  ghost predicate SomeHasDeadline(ts: seq<Tree>, d: int)
    decreases ts, |ts|
  {
    exists i :: 0 <= i < |ts| && HasDeadline(ts[i], d)
  }

  /** next is the least of the deadlines. */
  ghost predicate IsLeast(ts: seq<Tree>, next: Option<int>) {
    && (next.Some? ==> SomeHasDeadline(ts, next.value))
    && forall d :: SomeHasDeadline(ts, d) ==> next.Some? && next.value <= d
  }

  lemma {:induction false} OneEarliest(t: Tree)
    ensures EarliestIn(t).Some? ==> HasDeadline(t, EarliestIn(t).value)
    ensures forall d :: HasDeadline(t, d) ==> EarliestIn(t).Some? && EarliestIn(t).value <= d
    decreases t, 0
  {
    AllEarliest(t.referenced);
  }

  lemma {:induction false} AllEarliest(ts: seq<Tree>)
    ensures IsLeast(ts, Earliest(ts))
    decreases ts, |ts|
  {
    hide HasDeadline;
    if ts != [] {
      var before, last := ts[..|ts| - 1], ts[|ts| - 1];
      AllEarliest(before);
      OneEarliest(last);
      forall d ensures SomeHasDeadline(ts, d) <==> SomeHasDeadline(before, d) || HasDeadline(last, d) {
        if i :| 0 <= i < |before| && HasDeadline(before[i], d) { assert HasDeadline(ts[i], d); }
        if i :| 0 <= i < |ts| && HasDeadline(ts[i], d) { if i < |before| { assert HasDeadline(before[i], d); } }
      }
    }
  }
}
