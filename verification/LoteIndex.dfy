/** The entity index of the LoTE registry, and the jwk decision made from it. */
module LoteIndex {
  import opened Sets
  import opened Strings

  // ---------------------------------------------------------------- lists

  /** A service with the hashes of its digital identities. */
  datatype Service = Service(status: string, identities: seq<string>)

  datatype Entity = Entity(informationUris: seq<string>, names: seq<string>, services: seq<Service>)

  datatype Lote = Lote(schemeType: string, territory: string, entities: seq<Entity>)

  const NOTIFIED := "http://uri.etsi.org/19602/" + "PubEAAProvidersList/" + "SvcStatus/notified"

  function EntityId(e: Entity): string {
    if e.informationUris != [] then e.informationUris[0]
    else if e.names != [] then e.names[0]
    else ""
  }

  /** Lower case, as far as it can make a letter of "withdrawn": the dotted capital I folds to one too. */
  function LowerChar(c: char): char {
    if 'A' <= c <= 'Z' then (c as int + 32) as char
    else if c == '\U{0130}' then 'i'
    else c
  }

  function Lower(s: string): (t: string)
    ensures |t| == |s| && forall i :: 0 <= i < |s| ==> t[i] == LowerChar(s[i])
  {
    if s == "" then "" else [LowerChar(s[0])] + Lower(s[1..])
  }

  predicate IsWithdrawn(status: string) {
    Contains(Lower(status), "withdrawn")
  }

  /** A service whose key counts: notified, in a list of public attestation providers (Annex H of ETSI TS 119 602);
      not withdrawn, in any other list. */
  predicate Admissible(pubEaa: string -> bool, schemeType: string, status: string) {
    if pubEaa(schemeType) then status == NOTIFIED else !IsWithdrawn(status)
  }

  ghost function AdmissibleHashes(pubEaa: string -> bool, schemeType: string, ss: seq<Service>): set<string> {
    if ss == [] then {}
    else AdmissibleHashes(pubEaa, schemeType, ss[..|ss| - 1])
         + if Admissible(pubEaa, schemeType, ss[|ss| - 1].status) then Elements(ss[|ss| - 1].identities) else {}
  }

  // ---------------------------------------------------------------- the index as a value

  /** One entity of one list type. */
  datatype Indexed = Indexed(entityId: string, territory: string, schemeType: string, services: seq<Service>, keyHashes: set<string>)

  type Variants = map<string, seq<Indexed>>

  datatype Index = Index(variants: Variants, schemeTypes: set<string>, byKeyHash: ByKeyHash)

  const EMPTY_INDEX := Index(map[], {}, map[])

  /** An entity together with what its list says about it. */
  datatype Row = Row(schemeType: string, territory: string, entity: Entity)

  function VariantsOf(vs: Variants, id: string): seq<Indexed> {
    if id in vs then vs[id] else []
  }

  /** Where the variant of a type is, or the length when there is none. */
  function Find(vs: seq<Indexed>, schemeType: string): (i: nat)
    ensures i <= |vs|
    ensures i < |vs| ==> vs[i].schemeType == schemeType
    ensures forall j :: 0 <= j < i ==> vs[j].schemeType != schemeType
  {
    if vs == [] || vs[0].schemeType == schemeType then 0 else 1 + Find(vs[1..], schemeType)
  }

  ghost function Absorb(pubEaa: string -> bool, v: Indexed, r: Row): Indexed {
    v.(services := v.services + r.entity.services,
       keyHashes := v.keyHashes + AdmissibleHashes(pubEaa, r.schemeType, r.entity.services))
  }

  ghost function AddVariant(pubEaa: string -> bool, vs: seq<Indexed>, r: Row): seq<Indexed> {
    var i := Find(vs, r.schemeType);
    if i < |vs| then vs[i := Absorb(pubEaa, vs[i], r)]
    else vs + [Absorb(pubEaa, Indexed(EntityId(r.entity), r.territory, r.schemeType, [], {}), r)]
  }

  type ByKeyHash = map<string, set<string>>

  function AddHash(m: ByKeyHash, h: string, id: string): ByKeyHash {
    m[h := (if h in m then m[h] else {}) + {id}]
  }

  ghost function AddHashes(m: ByKeyHash, hs: seq<string>, id: string): ByKeyHash {
    if hs == [] then m else AddHash(AddHashes(m, hs[..|hs| - 1], id), hs[|hs| - 1], id)
  }

  ghost function AddServices(pubEaa: string -> bool, m: ByKeyHash, schemeType: string, ss: seq<Service>, id: string): ByKeyHash {
    if ss == [] then m
    else
      var before := AddServices(pubEaa, m, schemeType, ss[..|ss| - 1], id);
      var svc := ss[|ss| - 1];
      if Admissible(pubEaa, schemeType, svc.status) then AddHashes(before, svc.identities, id) else before
  }

  ghost function AddRow(pubEaa: string -> bool, ix: Index, r: Row): Index {
    var id := EntityId(r.entity);
    Index(ix.variants[id := AddVariant(pubEaa, VariantsOf(ix.variants, id), r)],
          ix.schemeTypes,
          AddServices(pubEaa, ix.byKeyHash, r.schemeType, r.entity.services, id))
  }

  ghost function AddRows(pubEaa: string -> bool, ix: Index, l: Lote, n: nat): Index
    requires n <= |l.entities|
  {
    if n == 0 then ix.(schemeTypes := ix.schemeTypes + {l.schemeType})
    else AddRow(pubEaa, AddRows(pubEaa, ix, l, n - 1), Row(l.schemeType, l.territory, l.entities[n - 1]))
  }

  /** buildIndex. */
  ghost function Built(pubEaa: string -> bool, ls: seq<Lote>): Index {
    if ls == [] then EMPTY_INDEX
    else AddRows(pubEaa, Built(pubEaa, ls[..|ls| - 1]), ls[|ls| - 1], |ls[|ls| - 1].entities|)
  }

  // ---------------------------------------------------------------- the index as buildIndex makes it

  class EntityIndex {
    var variants: Variants
    var schemeTypes: set<string>
    var byKeyHash: ByKeyHash

    function Value(): Index
      reads this
    {
      Index(variants, schemeTypes, byKeyHash)
    }

    constructor ()
      ensures Value() == EMPTY_INDEX
    {
      variants, schemeTypes, byKeyHash := map[], {}, map[];
    }

    /** One service's hashes, for the entity and for the reverse map. */
    method AddIdentities(hashes: seq<string>, id: string, keyHashes: set<string>) returns (more: set<string>)
      modifies `byKeyHash
      ensures byKeyHash == AddHashes(old(byKeyHash), hashes, id)
      ensures more == keyHashes + Elements(hashes)
    {
      more := keyHashes;
      for j := 0 to |hashes|
        invariant byKeyHash == AddHashes(old(byKeyHash), hashes[..j], id)
        invariant more == keyHashes + Elements(hashes[..j])
      {
        assert hashes[..j + 1][..j] == hashes[..j];
        more := more + {hashes[j]};
        byKeyHash := AddHash(byKeyHash, hashes[j], id);
      }
      assert hashes[..|hashes|] == hashes;
    }

    /** The services loop. */
    method AddKeys(pubEaa: string -> bool, schemeType: string, ss: seq<Service>, id: string, keyHashes: set<string>)
      returns (more: set<string>)
      modifies `byKeyHash
      ensures byKeyHash == AddServices(pubEaa, old(byKeyHash), schemeType, ss, id)
      ensures more == keyHashes + AdmissibleHashes(pubEaa, schemeType, ss)
    {
      hide Admissible, Elements;
      more := keyHashes;
      for j := 0 to |ss|
        invariant byKeyHash == AddServices(pubEaa, old(byKeyHash), schemeType, ss[..j], id)
        invariant more == keyHashes + AdmissibleHashes(pubEaa, schemeType, ss[..j])
      {
        assert ss[..j + 1][..j] == ss[..j];
        ghost var before := AdmissibleHashes(pubEaa, schemeType, ss[..j]);
        if Admissible(pubEaa, schemeType, ss[j].status) {
          more := AddIdentities(ss[j].identities, id, more);
          assert keyHashes + before + Elements(ss[j].identities) == keyHashes + (before + Elements(ss[j].identities));
        } else {
          assert before + {} == before;
        }
      }
      assert ss[..|ss|] == ss;
    }

    method AddEntity(pubEaa: string -> bool, r: Row)
      modifies `variants, `byKeyHash
      ensures Value() == AddRow(pubEaa, old(Value()), r)
    {
      hide AdmissibleHashes, AddServices;
      var id := EntityId(r.entity);
      var vs := VariantsOf(variants, id);
      var i := Find(vs, r.schemeType);
      var ie: Indexed;
      if i == |vs| {
        ie := Indexed(id, r.territory, r.schemeType, [] + r.entity.services, {});
        vs := vs + [ie];
      } else {
        ie := vs[i].(services := vs[i].services + r.entity.services);
      }
      var keys := AddKeys(pubEaa, r.schemeType, r.entity.services, id, ie.keyHashes);
      variants := variants[id := vs[i := ie.(keyHashes := keys)]];
      assert VariantsOf(variants, id) == AddVariant(pubEaa, VariantsOf(old(variants), id), r);
    }

    /** The loop over one list. */
    method AddList(pubEaa: string -> bool, l: Lote)
      modifies this
      ensures Value() == AddRows(pubEaa, old(Value()), l, |l.entities|)
    {
      hide AddRow;
      schemeTypes := schemeTypes + {l.schemeType};
      for n := 0 to |l.entities|
        invariant Value() == AddRows(pubEaa, old(Value()), l, n)
      {
        AddEntity(pubEaa, Row(l.schemeType, l.territory, l.entities[n]));
      }
    }
  }

  method BuildIndex(pubEaa: string -> bool, ls: seq<Lote>) returns (ix: EntityIndex)
    ensures fresh(ix) && ix.Value() == Built(pubEaa, ls)
  {
    hide AddRows;
    ix := new EntityIndex();
    for i := 0 to |ls|
      invariant fresh(ix) && ix.Value() == Built(pubEaa, ls[..i])
    {
      assert ls[..i + 1][..i] == ls[..i];
      ix.AddList(pubEaa, ls[i]);
    }
    assert ls[..|ls|] == ls;
  }
}
