/** Verifier identifiers, and the merge of those of several positive responses into one. */
module VerifierIds {

  datatype VerifierId = VerifierId(idType: string, id: string, basis: string)

  type Key = (string, string)

  function KeyOf(v: VerifierId): Key {
    (v.idType, v.id)
  }

  /** A response of a registry, as far as aggregates look at it; a response without a context has no identifiers. */
  datatype Reply = Reply(decision: bool, ids: seq<VerifierId>, incomplete: bool)

  // ---------------------------------------------------------------- the order

  /** Go's < on strings. */
  predicate Before(a: string, b: string) {
    b != "" && (a == "" || a[0] < b[0] || (a[0] == b[0] && Before(a[1..], b[1..])))
  }

  lemma {:induction false} BeforeTotal(a: string, b: string)
    ensures Before(a, b) || Before(b, a) || a == b
    ensures !(Before(a, b) && Before(b, a)) && (a == b ==> !Before(a, b))
  {
    if a != "" && b != "" {
      BeforeTotal(a[1..], b[1..]);
      assert a == [a[0]] + a[1..] && b == [b[0]] + b[1..];
    }
  }

  lemma {:induction false} BeforeTransitive(a: string, b: string, c: string)
    requires Before(a, b) && Before(b, c)
    ensures Before(a, c)
  {
    if a != "" && a[0] == b[0] == c[0] { BeforeTransitive(a[1..], b[1..], c[1..]); }
  }

  /** The comparison that sorts the merged identifiers. */
  predicate KeyBefore(k: Key, l: Key) {
    if k.0 != l.0 then Before(k.0, l.0) else Before(k.1, l.1)
  }

  lemma KeyBeforeTotal(k: Key, l: Key)
    ensures KeyBefore(k, l) || KeyBefore(l, k) || k == l
    ensures !(KeyBefore(k, l) && KeyBefore(l, k)) && (k == l ==> !KeyBefore(k, l))
  {
    BeforeTotal(k.0, l.0);
    BeforeTotal(k.1, l.1);
  }

  lemma KeyBeforeTransitive(k: Key, l: Key, m: Key)
    requires KeyBefore(k, l) && KeyBefore(l, m)
    ensures KeyBefore(k, m)
  {
    BeforeTotal(k.0, l.0);
    if k.0 != l.0 && l.0 != m.0 {
      BeforeTransitive(k.0, l.0, m.0);
      BeforeTotal(k.0, m.0);
    } else if k.0 == l.0 == m.0 {
      BeforeTransitive(k.1, l.1, m.1);
    }
  }

  // ---------------------------------------------------------------- sorting

  ghost predicate StrictlyIncreasing(s: seq<VerifierId>) {
    forall i, j :: 0 <= i < j < |s| ==> KeyBefore(KeyOf(s[i]), KeyOf(s[j]))
  }

  ghost predicate DistinctKeys(s: seq<VerifierId>) {
    forall i, j :: 0 <= i < j < |s| ==> KeyOf(s[i]) != KeyOf(s[j])
  }

  ghost function Keys(s: seq<VerifierId>): set<Key> {
    set v | v in s :: KeyOf(v)
  }

  /** Puts v behind all that do not come after it. */
  function Insert(s: seq<VerifierId>, v: VerifierId): (t: seq<VerifierId>)
    ensures multiset(t) == multiset(s) + multiset{v}
  {
    if s == [] || !KeyBefore(KeyOf(v), KeyOf(s[|s| - 1])) then s + [v]
    else
      assert s == s[..|s| - 1] + [s[|s| - 1]];
      Insert(s[..|s| - 1], v) + [s[|s| - 1]]
  }

  /** A stable sort by (type, id). */
  function Sort(s: seq<VerifierId>): (t: seq<VerifierId>)
    ensures multiset(t) == multiset(s)
  {
    if s == [] then []
    else
      assert s == s[..|s| - 1] + [s[|s| - 1]];
      Insert(Sort(s[..|s| - 1]), s[|s| - 1])
  }

  lemma SameMembersSameKeys(s: seq<VerifierId>, t: seq<VerifierId>)
    requires multiset(s) == multiset(t)
    ensures Keys(s) == Keys(t)
  {
    assert forall v :: v in s <==> v in multiset(s);
    assert forall v :: v in t <==> v in multiset(t);
  }

  lemma {:induction false} InsertKeeps(s: seq<VerifierId>, v: VerifierId)
    requires StrictlyIncreasing(s) && KeyOf(v) !in Keys(s)
    ensures StrictlyIncreasing(Insert(s, v))
  {
    hide KeyBefore, KeyOf;
    var n := |s| - 1;
    if s != [] {
      KeyBeforeTotal(KeyOf(v), KeyOf(s[n]));
      assert s[n] in s;
      if KeyBefore(KeyOf(v), KeyOf(s[n])) {
        InsertKeeps(s[..n], v);
        var t := Insert(s[..n], v);
        assert forall x :: x in t <==> x in multiset(t);
        forall i | 0 <= i < |t| ensures KeyBefore(KeyOf(t[i]), KeyOf(s[n])) {
          assert t[i] in multiset(s[..n]) + multiset{v};
        }
      } else {
        forall i | 0 <= i < n ensures KeyBefore(KeyOf(s[i]), KeyOf(v)) {
          KeyBeforeTransitive(KeyOf(s[i]), KeyOf(s[n]), KeyOf(v));
        }
      }
    }
  }

  lemma {:induction false} SortIsStrict(s: seq<VerifierId>)
    requires DistinctKeys(s)
    ensures StrictlyIncreasing(Sort(s)) && Keys(Sort(s)) == Keys(s)
  {
    hide KeyBefore, KeyOf, Insert;
    SameMembersSameKeys(s, Sort(s));
    if s != [] {
      var n := |s| - 1;
      SortIsStrict(s[..n]);
      InsertKeeps(Sort(s[..n]), s[n]);
    }
  }

  ghost function KeySeq(s: seq<VerifierId>): seq<Key> {
    seq(|s|, i requires 0 <= i < |s| => KeyOf(s[i]))
  }

  lemma FirstKeyIsIn(s: seq<VerifierId>)
    requires s != []
    ensures KeyOf(s[0]) in Keys(s)
  {
  }

  /** A strictly increasing sequence is determined by its keys. */
  lemma {:induction false} KeysDetermineOrder(s: seq<VerifierId>, t: seq<VerifierId>)
    requires StrictlyIncreasing(s) && StrictlyIncreasing(t) && Keys(s) == Keys(t)
    ensures KeySeq(s) == KeySeq(t)
  {
    hide KeyBefore, KeyOf;
    if s == [] {
      if t != [] {
        FirstKeyIsIn(t);
        assert false;
      }
    } else {
      var m := |s| - 1;
      assert KeyOf(s[m]) in Keys(t);
      var n := |t| - 1;
      LastKeyIsGreatest(s, t);
      LastKeyIsGreatest(t, s);
      KeyBeforeTotal(KeyOf(s[m]), KeyOf(t[n]));
      KeysWithoutLast(s);
      KeysWithoutLast(t);
      KeysDetermineOrder(s[..m], t[..n]);
      assert KeySeq(s) == KeySeq(s[..m]) + [KeyOf(s[m])];
      assert KeySeq(t) == KeySeq(t[..n]) + [KeyOf(t[n])];
    }
  }

  lemma LastKeyIsGreatest(s: seq<VerifierId>, t: seq<VerifierId>)
    requires StrictlyIncreasing(s) && s != [] && t != [] && Keys(s) == Keys(t)
    ensures KeyOf(t[|t| - 1]) == KeyOf(s[|s| - 1]) || KeyBefore(KeyOf(t[|t| - 1]), KeyOf(s[|s| - 1]))
  {
    hide KeyBefore, KeyOf;
    assert KeyOf(t[|t| - 1]) in Keys(s);
    var v :| v in s && KeyOf(v) == KeyOf(t[|t| - 1]);
    var i :| 0 <= i < |s| && s[i] == v;
  }

  lemma KeysWithoutLast(s: seq<VerifierId>)
    requires StrictlyIncreasing(s) && s != []
    ensures Keys(s[..|s| - 1]) == Keys(s) - {KeyOf(s[|s| - 1])} && StrictlyIncreasing(s[..|s| - 1])
  {
    hide KeyBefore, KeyOf;
    var n := |s| - 1;
    forall i | 0 <= i < n ensures KeyOf(s[i]) != KeyOf(s[n]) {
      KeyBeforeTotal(KeyOf(s[i]), KeyOf(s[n]));
    }
    assert s == s[..n] + [s[n]];
  }

  // ---------------------------------------------------------------- merging

  predicate HasKey(s: seq<VerifierId>, k: Key) {
    exists i :: 0 <= i < |s| && KeyOf(s[i]) == k
  }

  function AddNew(s: seq<VerifierId>, v: VerifierId): seq<VerifierId> {
    if HasKey(s, KeyOf(v)) then s else s + [v]
  }

  function AddAll(s: seq<VerifierId>, vs: seq<VerifierId>): seq<VerifierId> {
    if vs == [] then s else AddNew(AddAll(s, vs[..|vs| - 1]), vs[|vs| - 1])
  }

  function AddReplies(s: seq<VerifierId>, rs: seq<Reply>): seq<VerifierId> {
    if rs == [] then s
    else
      var before := AddReplies(s, rs[..|rs| - 1]);
      if rs[|rs| - 1].decision then AddAll(before, rs[|rs| - 1].ids) else before
  }

  /** The response that an aggregate builds. */
  class Aggregate {
    var decision: bool
    var ids: seq<VerifierId>

    constructor (decision: bool)
      ensures this.decision == decision && ids == []
    {
      this.decision, ids := decision, [];
    }

    /** One child's identifiers, first come first kept. */
    method AddChild(vs: seq<VerifierId>)
      modifies `ids
      ensures ids == AddAll(old(ids), vs)
    {
      for i := 0 to |vs|
        invariant ids == AddAll(old(ids), vs[..i])
      {
        assert vs[..i + 1][..i] == vs[..i];
        var dup := false;
        for j := 0 to |ids|
          invariant !dup && !HasKey(ids[..j], KeyOf(vs[i]))
        {
          assert ids[..j + 1] == ids[..j] + [ids[j]];
          if ids[j].idType == vs[i].idType && ids[j].id == vs[i].id {
            dup := true;
            break;
          }
        }
        assert dup || ids[..|ids|] == ids;
        if !dup { ids := ids + [vs[i]]; }
      }
      assert vs[..|vs|] == vs;
    }

    /** mergeVerifierIDs. */
    method MergeVerifierIds(children: seq<Reply>)
      modifies `ids
      ensures ids == if decision then Sort(AddReplies(old(ids), children)) else old(ids)
    {
      hide AddAll;
      if !decision { return; }
      for i := 0 to |children|
        invariant ids == AddReplies(old(ids), children[..i])
      {
        assert children[..i + 1][..i] == children[..i];
        if children[i].decision { AddChild(children[i].ids); }
      }
      assert children[..|children|] == children;
      ids := Sort(ids);
    }
  }

  // ---------------------------------------------------------------- what a merge contains

  lemma HasKeyMeaning(s: seq<VerifierId>, k: Key)
    ensures HasKey(s, k) <==> k in Keys(s)
  {
  }

  lemma KeysAppend(s: seq<VerifierId>, v: VerifierId)
    ensures Keys(s + [v]) == Keys(s) + {KeyOf(v)}
  {
    assert forall x :: x in s + [v] <==> x in s || x == v;
  }

  lemma AddNewMeaning(s: seq<VerifierId>, v: VerifierId)
    requires DistinctKeys(s)
    ensures DistinctKeys(AddNew(s, v)) && Keys(AddNew(s, v)) == Keys(s) + {KeyOf(v)}
  {
    hide KeyOf;
    HasKeyMeaning(s, KeyOf(v));
    KeysAppend(s, v);
  }

  lemma {:induction false} AddAllMeaning(s: seq<VerifierId>, vs: seq<VerifierId>)
    requires DistinctKeys(s)
    ensures DistinctKeys(AddAll(s, vs)) && Keys(AddAll(s, vs)) == Keys(s) + Keys(vs)
  {
    hide KeyOf, AddNew, DistinctKeys;
    if vs != [] {
      var n := |vs| - 1;
      AddAllMeaning(s, vs[..n]);
      AddNewMeaning(AddAll(s, vs[..n]), vs[n]);
      KeysAppend(vs[..n], vs[n]);
      assert vs == vs[..n] + [vs[n]];
    }
  }

  /** The keys of the positive replies. */
  ghost function PositiveKeys(rs: seq<Reply>): set<Key> {
    set r, v | r in rs && r.decision && v in r.ids :: KeyOf(v)
  }

  lemma {:induction false} AddRepliesMeaning(rs: seq<Reply>)
    ensures DistinctKeys(AddReplies([], rs)) && Keys(AddReplies([], rs)) == PositiveKeys(rs)
  {
    hide KeyOf, AddAll;
    if rs != [] {
      var n := |rs| - 1;
      AddRepliesMeaning(rs[..n]);
      AddAllMeaning(AddReplies([], rs[..n]), rs[n].ids);
      assert rs == rs[..n] + [rs[n]];
    }
  }

  /** What a merge into a new positive response gives: strictly increasing by (type, id), with exactly the keys of the
      positive replies. */
  lemma MergeMeaning(rs: seq<Reply>)
    ensures StrictlyIncreasing(Sort(AddReplies([], rs))) && Keys(Sort(AddReplies([], rs))) == PositiveKeys(rs)
  {
    AddRepliesMeaning(rs);
    SortIsStrict(AddReplies([], rs));
  }

  /** The order in which replies arrive does not matter to the merged (type, id) pairs. */
  lemma MergeIgnoresOrder(rs: seq<Reply>, ss: seq<Reply>)
    requires multiset(rs) == multiset(ss)
    ensures KeySeq(Sort(AddReplies([], rs))) == KeySeq(Sort(AddReplies([], ss)))
  {
    hide AddReplies, Sort, KeyOf;
    MergeMeaning(rs);
    MergeMeaning(ss);
    assert forall r :: r in rs <==> r in multiset(rs);
    assert forall r :: r in ss <==> r in multiset(ss);
    assert PositiveKeys(rs) == PositiveKeys(ss);
    KeysDetermineOrder(Sort(AddReplies([], rs)), Sort(AddReplies([], ss)));
  }

  /** All identifiers of the positive replies, as they arrive. */
  ghost function Arrivals(rs: seq<Reply>): seq<VerifierId> {
    if rs == [] then []
    else Arrivals(rs[..|rs| - 1]) + if rs[|rs| - 1].decision then rs[|rs| - 1].ids else []
  }

  lemma {:induction false} AddAllConcat(s: seq<VerifierId>, a: seq<VerifierId>, b: seq<VerifierId>)
    ensures AddAll(s, a + b) == AddAll(AddAll(s, a), b)
  {
    if b == [] {
      assert a + b == a;
    } else {
      assert (a + b)[..|a + b| - 1] == a + b[..|b| - 1];
      AddAllConcat(s, a, b[..|b| - 1]);
    }
  }

  lemma {:induction false} RepliesAsArrivals(rs: seq<Reply>)
    ensures AddReplies([], rs) == AddAll([], Arrivals(rs))
  {
    hide AddAll;
    if rs == [] {
      assert AddAll([], []) == [] by { NothingAdded(); }
    } else {
      var n := |rs| - 1;
      RepliesAsArrivals(rs[..n]);
      AddAllConcat([], Arrivals(rs[..n]), rs[n].ids);
      assert Arrivals(rs[..n]) + [] == Arrivals(rs[..n]);
    }
  }

  lemma NothingAdded()
    ensures AddAll([], []) == []
  {
  }

  ghost predicate FirstOfItsKey(vs: seq<VerifierId>, i: nat)
    requires i < |vs|
  {
    forall j :: 0 <= j < i ==> KeyOf(vs[j]) != KeyOf(vs[i])
  }

  lemma {:induction false} FirstIsAdded(vs: seq<VerifierId>, i: nat)
    requires i < |vs| && FirstOfItsKey(vs, i)
    ensures vs[i] in AddAll([], vs)
  {
    hide KeyOf;
    var n := |vs| - 1;
    if i < n {
      FirstIsAdded(vs[..n], i);
    } else {
      NothingIsDistinct();
      AddAllMeaning([], vs[..n]);
      HasKeyMeaning(AddAll([], vs[..n]), KeyOf(vs[n]));
    }
  }

  lemma NothingIsDistinct()
    ensures DistinctKeys([]) && Keys([]) == {}
  {
  }

  /** Each merged identifier is the first that arrived with its (type, id): with MergeMeaning, there is no other. */
  lemma MergeKeepsFirst(rs: seq<Reply>, i: nat)
    requires i < |Arrivals(rs)| && FirstOfItsKey(Arrivals(rs), i)
    ensures Arrivals(rs)[i] in Sort(AddReplies([], rs))
  {
    RepliesAsArrivals(rs);
    FirstIsAdded(Arrivals(rs), i);
    assert Arrivals(rs)[i] in multiset(AddReplies([], rs));
  }

  /** So the order of arrival does matter to the basis. */
  lemma BasisFollowsArrival()
    ensures var a, b := VerifierId("t", "i", "x5c-chain"), VerifierId("t", "i", "client-id-binding");
            var r, s := Reply(true, [a], false), Reply(true, [b], false);
            Sort(AddReplies([], [r, s])) == [a] && Sort(AddReplies([], [s, r])) == [b]
  {
    var a, b := VerifierId("t", "i", "x5c-chain"), VerifierId("t", "i", "client-id-binding");
    var r, s := Reply(true, [a], false), Reply(true, [b], false);
    TwoReplies(r, s, a, b);
    TwoReplies(s, r, b, a);
  }

  lemma AddAllOne(s: seq<VerifierId>, v: VerifierId)
    ensures AddAll(s, [v]) == AddNew(s, v)
  {
    assert [v][..0] == [];
  }

  lemma TwoReplies(r: Reply, s: Reply, a: VerifierId, b: VerifierId)
    requires r == Reply(true, [a], false) && s == Reply(true, [b], false) && KeyOf(a) == KeyOf(b)
    ensures Sort(AddReplies([], [r, s])) == [a]
  {
    hide AddAll, KeyOf, Sort;
    assert [r, s][..1] == [r] && [r][..0] == [];
    assert AddReplies([], [r]) == AddAll([], [a]);
    assert AddReplies([], [r, s]) == AddAll(AddReplies([], [r]), [b]);
    AddAllOne([], a);
    AddAllOne([a], b);
    assert [] + [a] == [a];
    assert KeyOf([a][0]) == KeyOf(b) && HasKey([a], KeyOf(b));
    SortOne(a);
  }

  lemma SortOne(a: VerifierId)
    ensures Sort([a]) == [a]
  {
    assert [a][..0] == [];
  }
}
