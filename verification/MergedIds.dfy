/** Which verifier identifiers an aggregate returns, and in which order, field by field. */
module MergedIds {
  import opened VerifierIds

  /** The order of strings: at the first place where they differ the smaller character, or the end, comes first. */
  ghost predicate ComesBefore(a: string, b: string) {
    exists k: nat :: FirstDifference(a, b, k) && (k == |a| || (k < |b| && a[k] < b[k]))
  }

  ghost predicate FirstDifference(a: string, b: string, k: nat) {
    && k <= |a| && k <= |b| && a[..k] == b[..k]
    && (k < |a| && k < |b| ==> a[k] != b[k])
    && !(k == |a| == |b|)
  }

  lemma SameStart(a: string, b: string, k: nat)
    requires 0 < k <= |a| && k <= |b|
    ensures a[..k] == b[..k] ==> a[0] == b[0]
  {
    assert a[..k][0] == a[0] && b[..k][0] == b[0];
  }

  lemma {:induction false} BeforeMeaning(a: string, b: string)
    ensures Before(a, b) <==> ComesBefore(a, b)
  {
    if a == "" || b == "" || a[0] != b[0] {
      assert a[..0] == b[..0];
      assert a != b ==> FirstDifference(a, b, 0);
      forall k: nat | 0 < k <= |a| && k <= |b| ensures a[..k] != b[..k] { SameStart(a, b, k); }
    } else {
      BeforeMeaning(a[1..], b[1..]);
      forall k: nat ensures FirstDifference(a[1..], b[1..], k) <==> FirstDifference(a, b, k + 1) {
        if k < |a| && k < |b| {
          assert a[..k + 1] == [a[0]] + a[1..][..k] && b[..k + 1] == [b[0]] + b[1..][..k];
          assert a[1..][..k] == a[..k + 1][1..] && b[1..][..k] == b[..k + 1][1..];
        }
      }
      assert forall k: nat :: FirstDifference(a, b, k) ==> k > 0 && FirstDifference(a[1..], b[1..], k - 1);
    }
  }

  /** The same type and identifier. */
  ghost predicate SameId(v: VerifierId, w: VerifierId) {
    v.idType == w.idType && v.id == w.id
  }

  /** By type, then by identifier. */
  ghost predicate InOrder(v: VerifierId, w: VerifierId) {
    ComesBefore(v.idType, w.idType) || (v.idType == w.idType && ComesBefore(v.id, w.id))
  }

  lemma KeyBeforeMeaning(v: VerifierId, w: VerifierId)
    ensures KeyBefore(KeyOf(v), KeyOf(w)) <==> InOrder(v, w)
  {
    hide ComesBefore, Before;
    BeforeMeaning(v.idType, w.idType);
    BeforeMeaning(v.id, w.id);
    BeforeTotal(v.idType, w.idType);
  }

  // ---------------------------------------------------------------- what arrives

  /** All identifiers of the replies that agree, reply by reply. */
  lemma {:induction false} ArrivalsMeaning(rs: seq<Reply>, r: Reply)
    ensures Arrivals(rs + [r]) == (if r.decision then Arrivals(rs) + r.ids else Arrivals(rs)) && Arrivals([]) == []
    ensures forall v :: v in Arrivals(rs) <==> exists x :: x in rs && x.decision && v in x.ids
  {
    assert (rs + [r])[..|rs|] == rs;
    assert Arrivals(rs) + [] == Arrivals(rs);
    if rs != [] {
      var n := |rs| - 1;
      ArrivalsMeaning(rs[..n], rs[n]);
      assert rs == rs[..n] + [rs[n]];
    }
  }

  /** The identifier arrives here, and none with its type and identifier has arrived earlier. */
  ghost predicate ArrivesFirst(vs: seq<VerifierId>, i: nat, v: VerifierId) {
    i < |vs| && vs[i] == v && forall j :: 0 <= j < i ==> !SameId(vs[j], v)
  }

  lemma SameKey(v: VerifierId, w: VerifierId)
    ensures KeyOf(v) == KeyOf(w) <==> SameId(v, w)
  {
  }

  lemma {:induction false} AddedIsFirst(vs: seq<VerifierId>, v: VerifierId)
    requires v in AddAll([], vs)
    ensures exists i: nat :: ArrivesFirst(vs, i, v)
  {
    hide KeyOf;
    if vs != [] {
      var n := |vs| - 1;
      if v in AddAll([], vs[..n]) {
        AddedIsFirst(vs[..n], v);
        var i: nat :| ArrivesFirst(vs[..n], i, v);
        assert ArrivesFirst(vs, i, v);
      } else {
        NothingIsDistinct();
        AddAllMeaning([], vs[..n]);
        HasKeyMeaning(AddAll([], vs[..n]), KeyOf(vs[n]));
        forall j | 0 <= j < n ensures !SameId(vs[j], v) {
          SameKey(vs[j], v);
          assert vs[j] in vs[..n];
        }
        assert ArrivesFirst(vs, n, v);
      }
    }
  }

  /** A merge into a new response that agrees holds the first arrivals and nothing else, in strictly increasing order. */
  lemma MergeInFull(rs: seq<Reply>)
    ensures var ids := Sort(AddReplies([], rs));
            && (forall v :: v in ids <==> exists i: nat :: ArrivesFirst(Arrivals(rs), i, v))
            && forall i, j :: 0 <= i < j < |ids| ==> InOrder(ids[i], ids[j])
  {
    hide Sort, AddAll, KeyOf, KeyBefore, InOrder, SameId;
    var vs, ids := Arrivals(rs), Sort(AddReplies([], rs));
    MergeMeaning(rs);
    RepliesAsArrivals(rs);
    forall i, j | 0 <= i < j < |ids| ensures InOrder(ids[i], ids[j]) { KeyBeforeMeaning(ids[i], ids[j]); }
    assert forall v :: v in ids <==> v in AddAll([], vs) by {
      assert forall v :: v in multiset(ids) <==> v in ids;
      assert forall v :: v in multiset(AddAll([], vs)) <==> v in AddAll([], vs);
    }
    forall v ensures v in AddAll([], vs) <==> exists i: nat :: ArrivesFirst(vs, i, v) {
      if v in AddAll([], vs) { AddedIsFirst(vs, v); }
      if i: nat :| ArrivesFirst(vs, i, v) {
        forall j | 0 <= j < i ensures KeyOf(vs[j]) != KeyOf(vs[i]) { SameKey(vs[j], vs[i]); }
        FirstIsAdded(vs, i);
      }
    }
  }
}
