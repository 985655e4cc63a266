/** What the entity index says, read off the loaded lists one entity at a time. */
module LoteMeaning {
  import opened LoteIndex
  import opened Sets

  /** What the lists say about one identifier under one list type: whether it is listed, and all services of all entities
      that carry it, in the order of the lists. */
  datatype Merged = Merged(listed: bool, services: seq<Service>)

  ghost function Merge(m: Merged, r: Row, schemeType: string, id: string): Merged {
    if r.schemeType == schemeType && EntityId(r.entity) == id then Merged(true, m.services + r.entity.services) else m
  }

  ghost function MergeRows(m: Merged, l: Lote, n: nat, schemeType: string, id: string): Merged
    requires n <= |l.entities|
  {
    if n == 0 then m
    else Merge(MergeRows(m, l, n - 1, schemeType, id), Row(l.schemeType, l.territory, l.entities[n - 1]), schemeType, id)
  }

  ghost function MergeLists(ls: seq<Lote>, schemeType: string, id: string): Merged {
    if ls == [] then Merged(false, [])
    else MergeRows(MergeLists(ls[..|ls| - 1], schemeType, id), ls[|ls| - 1], |ls[|ls| - 1].entities|, schemeType, id)
  }

  // ---------------------------------------------------------------- admissible hashes

  ghost predicate Offers(pubEaa: string -> bool, schemeType: string, s: Service, h: string) {
    Admissible(pubEaa, schemeType, s.status) && h in s.identities
  }

  lemma {:induction false} AdmissibleHashesMeaning(pubEaa: string -> bool, schemeType: string, ss: seq<Service>, h: string)
    ensures h in AdmissibleHashes(pubEaa, schemeType, ss) <==> exists s :: s in ss && Offers(pubEaa, schemeType, s, h)
  {
    hide Admissible;
    if ss != [] {
      var rest, last := ss[..|ss| - 1], ss[|ss| - 1];
      AdmissibleHashesMeaning(pubEaa, schemeType, rest, h);
      assert forall s :: s in ss <==> s in rest || s == last by {
        assert ss == rest + [last];
      }
      assert Offers(pubEaa, schemeType, last, h)
        <==> h in (if Admissible(pubEaa, schemeType, last.status) then Elements(last.identities) else {});
    }
  }

  lemma AdmissibleHashesConcat(pubEaa: string -> bool, schemeType: string, a: seq<Service>, b: seq<Service>)
    ensures AdmissibleHashes(pubEaa, schemeType, a + b)
         == AdmissibleHashes(pubEaa, schemeType, a) + AdmissibleHashes(pubEaa, schemeType, b)
  {
    hide AdmissibleHashes;
    forall h ensures h in AdmissibleHashes(pubEaa, schemeType, a + b)
                <==> h in AdmissibleHashes(pubEaa, schemeType, a) + AdmissibleHashes(pubEaa, schemeType, b) {
      AdmissibleHashesMeaning(pubEaa, schemeType, a + b, h);
      AdmissibleHashesMeaning(pubEaa, schemeType, a, h);
      AdmissibleHashesMeaning(pubEaa, schemeType, b, h);
    }
  }

  // ---------------------------------------------------------------- one identifier's variants

  predicate Distinct(vs: seq<Indexed>) {
    forall i, j :: 0 <= i < j < |vs| ==> vs[i].schemeType != vs[j].schemeType
  }

  /** The variants of an identifier say about a type what the lists say. */
  ghost predicate Agrees(pubEaa: string -> bool, vs: seq<Indexed>, m: Merged, schemeType: string) {
    var i := Find(vs, schemeType);
    if m.listed then
      i < |vs| && vs[i].services == m.services && vs[i].keyHashes == AdmissibleHashes(pubEaa, schemeType, m.services)
    else
      i == |vs| && m.services == []
  }

  /** Find depends only on the types. */
  lemma {:induction false} FindIsFirst(vs: seq<Indexed>, schemeType: string, i: nat)
    requires i <= |vs| && (i < |vs| ==> vs[i].schemeType == schemeType)
    requires forall j :: 0 <= j < i ==> vs[j].schemeType != schemeType
    ensures Find(vs, schemeType) == i
  {
    if vs != [] && i > 0 { FindIsFirst(vs[1..], schemeType, i - 1); }
  }

  lemma AddVariantAgrees(pubEaa: string -> bool, vs: seq<Indexed>, m: Merged, r: Row, schemeType: string, id: string)
    requires Distinct(vs) && Agrees(pubEaa, vs, m, schemeType) && EntityId(r.entity) == id
    ensures Distinct(AddVariant(pubEaa, vs, r))
    ensures Agrees(pubEaa, AddVariant(pubEaa, vs, r), Merge(m, r, schemeType, id), schemeType)
  {
    hide AdmissibleHashes;
    var after := AddVariant(pubEaa, vs, r);
    var i := Find(vs, schemeType);
    if r.schemeType == schemeType {
      AdmissibleHashesConcat(pubEaa, schemeType, m.services, r.entity.services);
      if i == |vs| {
        assert [] + r.entity.services == r.entity.services;
        assert {} + AdmissibleHashes(pubEaa, schemeType, r.entity.services) == AdmissibleHashes(pubEaa, schemeType, r.entity.services);
      }
      FindIsFirst(after, schemeType, i);
    } else {
      FindIsFirst(after, schemeType, if i < |vs| then i else |after|);
    }
  }

  // ---------------------------------------------------------------- the whole index

  ghost predicate IndexAgrees(pubEaa: string -> bool, ix: Index, m: Merged, schemeType: string, id: string) {
    var vs := VariantsOf(ix.variants, id);
    Distinct(vs) && Agrees(pubEaa, vs, m, schemeType)
  }

  lemma {:induction false} RowsAgree(pubEaa: string -> bool, ix: Index, m: Merged, l: Lote, n: nat, schemeType: string, id: string)
    requires n <= |l.entities| && IndexAgrees(pubEaa, ix, m, schemeType, id)
    ensures IndexAgrees(pubEaa, AddRows(pubEaa, ix, l, n), MergeRows(m, l, n, schemeType, id), schemeType, id)
  {
    hide AddVariant, Agrees, Distinct, AddServices;
    if n > 0 {
      RowsAgree(pubEaa, ix, m, l, n - 1, schemeType, id);
      var before := AddRows(pubEaa, ix, l, n - 1);
      var r := Row(l.schemeType, l.territory, l.entities[n - 1]);
      if EntityId(r.entity) == id {
        AddVariantAgrees(pubEaa, VariantsOf(before.variants, id), MergeRows(m, l, n - 1, schemeType, id), r, schemeType, id);
      }
    }
  }

  /** The index agrees with the lists on every identifier and every type: there is one variant for each type under which
      the identifier is listed, and it pools the services and the admissible key hashes of all entities of that type that
      carry the identifier. */
  lemma {:induction false} IndexAgreesWithLists(pubEaa: string -> bool, ls: seq<Lote>, schemeType: string, id: string)
    ensures IndexAgrees(pubEaa, Built(pubEaa, ls), MergeLists(ls, schemeType, id), schemeType, id)
  {
    hide AddRows, MergeRows;
    if ls != [] {
      IndexAgreesWithLists(pubEaa, ls[..|ls| - 1], schemeType, id);
      var l := ls[|ls| - 1];
      RowsAgree(pubEaa, Built(pubEaa, ls[..|ls| - 1]), MergeLists(ls[..|ls| - 1], schemeType, id), l, |l.entities|, schemeType, id);
    }
  }

  // ---------------------------------------------------------------- the merged view is a scan

  ghost predicate Carries(e: Entity, id: string) {
    EntityId(e) == id
  }

  ghost predicate ListedAmong(es: seq<Entity>, id: string) {
    exists e :: e in es && Carries(e, id)
  }

  ghost predicate ServedAmong(es: seq<Entity>, id: string, s: Service) {
    exists e :: e in es && Carries(e, id) && s in e.services
  }

  ghost predicate ListedIn(l: Lote, schemeType: string, id: string) {
    l.schemeType == schemeType && ListedAmong(l.entities, id)
  }

  ghost predicate ServedIn(l: Lote, schemeType: string, id: string, s: Service) {
    l.schemeType == schemeType && ServedAmong(l.entities, id, s)
  }

  lemma {:induction false} RowsMeaning(m: Merged, l: Lote, n: nat, schemeType: string, id: string, s: Service)
    requires n <= |l.entities|
    ensures MergeRows(m, l, n, schemeType, id).listed
       <==> m.listed || (l.schemeType == schemeType && ListedAmong(l.entities[..n], id))
    ensures s in MergeRows(m, l, n, schemeType, id).services
       <==> s in m.services || (l.schemeType == schemeType && ServedAmong(l.entities[..n], id, s))
  {
    if n > 0 {
      RowsMeaning(m, l, n - 1, schemeType, id, s);
      var last := l.entities[n - 1];
      assert forall e :: e in l.entities[..n] <==> e in l.entities[..n - 1] || e == last by {
        assert l.entities[..n] == l.entities[..n - 1] + [last];
      }
      assert Carries(last, id) <==> EntityId(last) == id;
    }
  }

  /** The merged view of the lists contains exactly what a scan of the lists finds. */
  lemma {:induction false} ListsMeaning(ls: seq<Lote>, schemeType: string, id: string, s: Service)
    ensures MergeLists(ls, schemeType, id).listed <==> exists l :: l in ls && ListedIn(l, schemeType, id)
    ensures s in MergeLists(ls, schemeType, id).services <==> exists l :: l in ls && ServedIn(l, schemeType, id, s)
  {
    hide MergeRows, ListedAmong, ServedAmong;
    if ls != [] {
      var rest, last := ls[..|ls| - 1], ls[|ls| - 1];
      ListsMeaning(rest, schemeType, id, s);
      RowsMeaning(MergeLists(rest, schemeType, id), last, |last.entities|, schemeType, id, s);
      assert last.entities[..|last.entities|] == last.entities;
      assert forall l :: l in ls <==> l in rest || l == last by {
        assert ls == rest + [last];
      }
      // the last list by itself
      var listed, served := ListedIn(last, schemeType, id), ServedIn(last, schemeType, id, s);
    }
  }

  lemma {:induction false} RowsKeepTypes(pubEaa: string -> bool, ix: Index, l: Lote, n: nat)
    requires n <= |l.entities|
    ensures AddRows(pubEaa, ix, l, n).schemeTypes == ix.schemeTypes + {l.schemeType}
  {
    if n > 0 { RowsKeepTypes(pubEaa, ix, l, n - 1); }
  }

  /** The index knows exactly the types of the lists. */
  lemma {:induction false} SchemeTypesMeaning(pubEaa: string -> bool, ls: seq<Lote>, schemeType: string)
    ensures schemeType in Built(pubEaa, ls).schemeTypes <==> exists l :: l in ls && l.schemeType == schemeType
  {
    hide AddRows;
    if ls != [] {
      var rest, last := ls[..|ls| - 1], ls[|ls| - 1];
      SchemeTypesMeaning(pubEaa, rest, schemeType);
      RowsKeepTypes(pubEaa, Built(pubEaa, rest), last, |last.entities|);
      assert ls == rest + [last];
    }
  }

  // ---------------------------------------------------------------- the reverse map

  ghost predicate Points(m: ByKeyHash, h: string, id: string) {
    h in m && id in m[h]
  }

  lemma {:induction false} AddHashesMeaning(m: ByKeyHash, hs: seq<string>, owner: string, h: string, id: string)
    ensures Points(AddHashes(m, hs, owner), h, id) <==> Points(m, h, id) || (id == owner && h in hs)
  {
    if hs != [] {
      AddHashesMeaning(m, hs[..|hs| - 1], owner, h, id);
      assert hs == hs[..|hs| - 1] + [hs[|hs| - 1]];
    }
  }

  lemma {:induction false} AddServicesMeaning(pubEaa: string -> bool, m: ByKeyHash, schemeType: string, ss: seq<Service>, owner: string,
                                              h: string, id: string)
    ensures Points(AddServices(pubEaa, m, schemeType, ss, owner), h, id)
       <==> Points(m, h, id) || (id == owner && h in AdmissibleHashes(pubEaa, schemeType, ss))
  {
    hide Admissible, AddHashes, Points;
    if ss != [] {
      AddServicesMeaning(pubEaa, m, schemeType, ss[..|ss| - 1], owner, h, id);
      AddHashesMeaning(AddServices(pubEaa, m, schemeType, ss[..|ss| - 1], owner), ss[|ss| - 1].identities, owner, h, id);
    }
  }

  ghost predicate KeyAmong(pubEaa: string -> bool, schemeType: string, es: seq<Entity>, h: string, id: string) {
    exists e :: e in es && Carries(e, id) && h in AdmissibleHashes(pubEaa, schemeType, e.services)
  }

  lemma {:induction false} RowsPoint(pubEaa: string -> bool, ix: Index, l: Lote, n: nat, h: string, id: string)
    requires n <= |l.entities|
    ensures Points(AddRows(pubEaa, ix, l, n).byKeyHash, h, id)
       <==> Points(ix.byKeyHash, h, id) || KeyAmong(pubEaa, l.schemeType, l.entities[..n], h, id)
  {
    hide AdmissibleHashes, AddServices, Points, AddVariant;
    if n > 0 {
      RowsPoint(pubEaa, ix, l, n - 1, h, id);
      var e := l.entities[n - 1];
      AddServicesMeaning(pubEaa, AddRows(pubEaa, ix, l, n - 1).byKeyHash, l.schemeType, e.services, EntityId(e), h, id);
      assert l.entities[..n] == l.entities[..n - 1] + [e];
    }
  }

  /** The reverse map sends a key hash to exactly the identifiers some list gives it to, in a service that counts. */
  lemma {:induction false} ByKeyHashMeaning(pubEaa: string -> bool, ls: seq<Lote>, h: string, id: string)
    ensures Points(Built(pubEaa, ls).byKeyHash, h, id)
       <==> exists l :: l in ls && KeyAmong(pubEaa, l.schemeType, l.entities, h, id)
  {
    hide AddRows, KeyAmong;
    if ls != [] {
      var rest, last := ls[..|ls| - 1], ls[|ls| - 1];
      ByKeyHashMeaning(pubEaa, rest, h, id);
      RowsPoint(pubEaa, Built(pubEaa, rest), last, |last.entities|, h, id);
      assert last.entities[..|last.entities|] == last.entities;
      assert ls == rest + [last];
    }
  }
}
