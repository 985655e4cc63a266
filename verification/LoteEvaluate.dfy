/** The LoTE registry's decision on a jwk or resolution-only request, with no National Register client configured. */
module LoteEvaluate {
  import opened Options
  import opened Strings
  import opened LoteIndex
  import opened LoteMeaning

  /** What Evaluate reads of a request: the action's name ("" when there is no action), the subject, whether a key is
      bound at all, and the hash of the key (None when hashing it fails). */
  datatype Request = Request(role: string, subject: string, resolutionOnly: bool, keyHash: Option<string>)

  /** Which list types are public-attestation lists, and RoleSchemeTypes. */
  datatype Rules = Rules(pubEaa: string -> bool, roles: map<string, seq<string>>)

  const LOTE_TYPE_PREFIX := "http://uri.etsi.org/19602/LoTEType/"

  /** The list types a role is limited to; None is no limit. */
  function RoleTypes(roles: map<string, seq<string>>, loaded: set<string>, role: string): Option<seq<string>> {
    if role == "" then None
    else if role in roles && roles[role] != [] then Some(roles[role])
    else if role in loaded || HasPrefix(role, LOTE_TYPE_PREFIX) then Some([role])
    else None
  }

  predicate TypeAllowed(allowed: Option<seq<string>>, schemeType: string) {
    allowed.None? || schemeType in allowed.value
  }

  // ---------------------------------------------------------------- the code

  method HasNotifiedService(ss: seq<Service>) returns (found: bool)
    ensures found <==> exists s :: s in ss && s.status == NOTIFIED
  {
    NotifiedIsNotWithdrawn();
    hide IsWithdrawn;
    for j := 0 to |ss|
      invariant forall i :: 0 <= i < j ==> ss[i].status != NOTIFIED
    {
      if IsWithdrawn(ss[j].status) { continue; }
      if ss[j].status == NOTIFIED { return true; }
    }
    found := false;
  }

  predicate NoW(s: string) {
    forall i :: 0 <= i < |s| ==> s[i] != 'w' && s[i] != 'W'
  }

  lemma NoWConcat(a: string, b: string)
    requires NoW(a) && NoW(b)
    ensures NoW(a + b)
  {
  }

  /** The notified status is not a withdrawn one, so skipping withdrawn services first loses nothing. */
  lemma NotifiedIsNotWithdrawn()
    ensures !IsWithdrawn(NOTIFIED)
  {
    var a, b, c := "http://uri.etsi.org/19602/", "PubEAAProvidersList/", "SvcStatus/notified";
    assert NoW(a) && NoW(b) && NoW(c);
    hide NoW, IsWithdrawn;
    NoWConcat(a, b);
    NoWConcat(a + b, c);
    NoWNoWithdrawn(a + b + c);
  }

  lemma NoWNoWithdrawn(s: string)
    requires NoW(s)
    ensures !IsWithdrawn(s)
  {
    var t, w := Lower(s), "withdrawn";
    forall i | 0 <= i <= |t| - |w|
      ensures !HasPrefix(t[i..], w)
    {
      assert t[i..][..|w|][0] == t[i] == LowerChar(s[i]);
    }
  }

  /** What a variant must offer for a grant. */
  ghost predicate Grants(rules: Rules, v: Indexed, req: Request) {
    && (rules.pubEaa(v.schemeType) ==> exists s :: s in v.services && s.status == NOTIFIED)
    && (req.resolutionOnly || (req.keyHash.Some? && req.keyHash.value in v.keyHashes))
  }

  method EvaluateEntity(rules: Rules, v: Indexed, req: Request) returns (granted: bool)
    ensures granted <==> Grants(rules, v, req)
  {
    if rules.pubEaa(v.schemeType) {
      var notified := HasNotifiedService(v.services);
      if !notified { return false; }
    }
    if req.resolutionOnly { return true; }
    if req.keyHash.None? { return false; }
    return req.keyHash.value in v.keyHashes;
  }

  /** Some variant of an allowed type grants. */
  ghost predicate SomeGrants(rules: Rules, vs: seq<Indexed>, allowed: Option<seq<string>>, req: Request) {
    exists v :: v in vs && TypeAllowed(allowed, v.schemeType) && Grants(rules, v, req)
  }

  method Candidates(vs: seq<Indexed>, allowed: Option<seq<string>>) returns (cs: seq<Indexed>)
    ensures forall v :: v in cs <==> v in vs && TypeAllowed(allowed, v.schemeType)
  {
    cs := [];
    for i := 0 to |vs|
      invariant forall v :: v in cs <==> v in vs[..i] && TypeAllowed(allowed, v.schemeType)
    {
      if TypeAllowed(allowed, vs[i].schemeType) { cs := cs + [vs[i]]; }
    }
  }

  /** Evaluate from the lookup on. */
  method Decide(rules: Rules, ix: EntityIndex, req: Request) returns (granted: bool)
    ensures granted
       <==> SomeGrants(rules, VariantsOf(ix.variants, req.subject), RoleTypes(rules.roles, ix.schemeTypes, req.role), req)
  {
    hide Grants, RoleTypes;
    var allowed := RoleTypes(rules.roles, ix.schemeTypes, req.role);
    var vs := VariantsOf(ix.variants, req.subject);
    var cs := Candidates(vs, allowed);
    if |vs| > 0 && |cs| == 0 { return false; }
    if |cs| == 0 { return false; }
    for i := 0 to |cs|
      invariant forall k :: 0 <= k < i ==> !Grants(rules, cs[k], req)
    {
      var g := EvaluateEntity(rules, cs[i], req);
      if g { return true; }
    }
    return false;
  }

  // ---------------------------------------------------------------- the linear scan

  /** A service that earns the grant: the notified one when no key is bound, else one that counts and has the key. */
  ghost predicate Earns(rules: Rules, schemeType: string, s: Service, req: Request) {
    if req.resolutionOnly then s.status == NOTIFIED
    else req.keyHash.Some? && Offers(rules.pubEaa, schemeType, s, req.keyHash.value)
  }

  /** Being listed is enough when no key is bound and the type is not a public-attestation type. */
  predicate ListingSuffices(rules: Rules, schemeType: string, req: Request) {
    req.resolutionOnly && !rules.pubEaa(schemeType)
  }

  ghost predicate Meets(rules: Rules, schemeType: string, ss: seq<Service>, req: Request) {
    ListingSuffices(rules, schemeType, req) || exists s :: s in ss && Earns(rules, schemeType, s, req)
  }

  ghost predicate MetIn(rules: Rules, l: Lote, req: Request) {
    exists e :: e in l.entities && Carries(e, req.subject) && Meets(rules, l.schemeType, e.services, req)
  }

  /** A loaded list of a type the role permits has an entity that carries the subject's identifier and meets the request. */
  ghost predicate ScanGrants(rules: Rules, ls: seq<Lote>, allowed: Option<seq<string>>, req: Request) {
    exists l :: l in ls && TypeAllowed(allowed, l.schemeType) && MetIn(rules, l, req)
  }

  ghost function TypesOf(ls: seq<Lote>): set<string> {
    set l | l in ls :: l.schemeType
  }

  ghost predicate VariantGrants(rules: Rules, vs: seq<Indexed>, schemeType: string, req: Request) {
    var i := Find(vs, schemeType);
    i < |vs| && Grants(rules, vs[i], req)
  }

  ghost predicate MergedGrants(rules: Rules, m: Merged, schemeType: string, req: Request) {
    m.listed && Meets(rules, schemeType, m.services, req)
  }

  lemma MergedGrantsMeaning(rules: Rules, vs: seq<Indexed>, m: Merged, schemeType: string, req: Request)
    requires Agrees(rules.pubEaa, vs, m, schemeType)
    ensures VariantGrants(rules, vs, schemeType, req) <==> MergedGrants(rules, m, schemeType, req)
  {
    hide AdmissibleHashes, IsWithdrawn;
    if req.keyHash.Some? {
      AdmissibleHashesMeaning(rules.pubEaa, schemeType, m.services, req.keyHash.value);
    }
  }

  /** Pooling the entities of one type neither adds a grant nor loses one. */
  lemma PoolingIsScan(rules: Rules, ls: seq<Lote>, schemeType: string, req: Request)
    ensures MergedGrants(rules, MergeLists(ls, schemeType, req.subject), schemeType, req)
       <==> exists l :: l in ls && l.schemeType == schemeType && MetIn(rules, l, req)
  {
    var m := MergeLists(ls, schemeType, req.subject);
    if MergedGrants(rules, m, schemeType, req) { PooledGrantIsListed(rules, ls, schemeType, req); }
    if l :| l in ls && l.schemeType == schemeType && MetIn(rules, l, req) { ListedGrantIsPooled(rules, ls, l, req); }
  }

  lemma PooledGrantIsListed(rules: Rules, ls: seq<Lote>, schemeType: string, req: Request)
    requires MergedGrants(rules, MergeLists(ls, schemeType, req.subject), schemeType, req)
    ensures exists l :: l in ls && l.schemeType == schemeType && MetIn(rules, l, req)
  {
    hide MergeLists, Earns, ListingSuffices;
    var id, m := req.subject, MergeLists(ls, schemeType, req.subject);
    if ListingSuffices(rules, schemeType, req) {
      ListsMeaning(ls, schemeType, id, Service("", []));
      var l :| l in ls && ListedIn(l, schemeType, id);
      assert MetIn(rules, l, req);
    } else {
      var s :| s in m.services && Earns(rules, schemeType, s, req);
      ListsMeaning(ls, schemeType, id, s);
      var l :| l in ls && ServedIn(l, schemeType, id, s);
      assert MetIn(rules, l, req);
    }
  }

  lemma ListedGrantIsPooled(rules: Rules, ls: seq<Lote>, l: Lote, req: Request)
    requires l in ls && MetIn(rules, l, req)
    ensures MergedGrants(rules, MergeLists(ls, l.schemeType, req.subject), l.schemeType, req)
  {
    hide MergeLists, Earns, ListingSuffices;
    var id := req.subject;
    var e :| e in l.entities && Carries(e, id) && Meets(rules, l.schemeType, e.services, req);
    assert ListedIn(l, l.schemeType, id);
    ListsMeaning(ls, l.schemeType, id, Service("", []));
    if s :| s in e.services && Earns(rules, l.schemeType, s, req) {
      assert ServedIn(l, l.schemeType, id, s);
      ListsMeaning(ls, l.schemeType, id, s);
    }
  }

  lemma SomeGrantsByType(rules: Rules, vs: seq<Indexed>, allowed: Option<seq<string>>, req: Request)
    requires Distinct(vs)
    ensures SomeGrants(rules, vs, allowed, req)
       <==> exists t :: TypeAllowed(allowed, t) && VariantGrants(rules, vs, t, req)
  {
    hide Grants, TypeAllowed;
    if v :| v in vs && TypeAllowed(allowed, v.schemeType) && Grants(rules, v, req) {
      var i :| 0 <= i < |vs| && vs[i] == v;
      FindIsFirst(vs, v.schemeType, i);
      assert VariantGrants(rules, vs, v.schemeType, req);
    }
  }

  /** The merged variants and the index decide as a linear scan of the lists does. */
  lemma IndexDecidesAsScan(rules: Rules, ls: seq<Lote>, allowed: Option<seq<string>>, req: Request)
    ensures SomeGrants(rules, VariantsOf(Built(rules.pubEaa, ls).variants, req.subject), allowed, req)
       <==> ScanGrants(rules, ls, allowed, req)
  {
    hide Built, MergeLists, VariantGrants, MergedGrants, MetIn, TypeAllowed, SomeGrants;
    var vs := VariantsOf(Built(rules.pubEaa, ls).variants, req.subject);
    forall t
      ensures VariantGrants(rules, vs, t, req) <==> exists l :: l in ls && l.schemeType == t && MetIn(rules, l, req)
    {
      IndexAgreesWithLists(rules.pubEaa, ls, t, req.subject);
      hide Agrees;
      MergedGrantsMeaning(rules, vs, MergeLists(ls, t, req.subject), t, req);
      PoolingIsScan(rules, ls, t, req);
    }
    IndexAgreesWithLists(rules.pubEaa, ls, "", req.subject);
    SomeGrantsByType(rules, vs, allowed, req);
  }

  lemma BuiltTypes(pubEaa: string -> bool, ls: seq<Lote>)
    ensures Built(pubEaa, ls).schemeTypes == TypesOf(ls)
  {
    hide Built;
    forall t ensures t in Built(pubEaa, ls).schemeTypes <==> t in TypesOf(ls) {
      SchemeTypesMeaning(pubEaa, ls, t);
    }
  }

  /** The decision on the loaded lists. */
  ghost predicate Decision(rules: Rules, ls: seq<Lote>, req: Request) {
    ScanGrants(rules, ls, RoleTypes(rules.roles, TypesOf(ls), req.role), req)
  }

  /** Evaluate on the index of ls. */
  method Evaluate(rules: Rules, ghost ls: seq<Lote>, ix: EntityIndex, req: Request) returns (granted: bool)
    requires ix.Value() == Built(rules.pubEaa, ls)
    ensures granted <==> Decision(rules, ls, req)
  {
    hide SomeGrants, ScanGrants, RoleTypes, Built;
    granted := Decide(rules, ix, req);
    assert ix.variants == ix.Value().variants && ix.schemeTypes == ix.Value().schemeTypes;
    BuiltTypes(rules.pubEaa, ls);
    IndexDecidesAsScan(rules, ls, RoleTypes(rules.roles, ix.schemeTypes, req.role), req);
  }

  // ---------------------------------------------------------------- dropping lists

  /** The role's limit does not come from the lists that are loaded. */
  predicate ScopedByRules(rules: Rules, role: string) {
    role == "" || (role in rules.roles && rules.roles[role] != []) || HasPrefix(role, LOTE_TYPE_PREFIX)
  }

  /** Dropping lists cannot turn a denial into a grant, unless it drops the last list of the type that the role names:
      the role is then no longer a limit. */
  lemma DroppingListsOnlyDenies(rules: Rules, ls: seq<Lote>, live: seq<Lote>, req: Request)
    requires forall l :: l in live ==> l in ls
    requires ScopedByRules(rules, req.role) || (req.role in TypesOf(ls) ==> req.role in TypesOf(live))
    ensures Decision(rules, live, req) ==> Decision(rules, ls, req)
  {
    hide MetIn, HasPrefix;
    assert RoleTypes(rules.roles, TypesOf(live), req.role) == RoleTypes(rules.roles, TypesOf(ls), req.role);
  }

  /** Where the condition fails, some request is denied before and granted after, whatever the role is. */
  lemma DroppingTheLastListWidens(rules: Rules, role: string, other: string)
    requires !ScopedByRules(rules, role) && other != role && !rules.pubEaa(other)
    ensures var ls := [Lote(role, "", []), Lote(other, "", [Entity(["id"], [], [])])];
            var req := Request(role, "id", true, None);
            !Decision(rules, ls, req) && Decision(rules, ls[1..], req)
  {
    var e := Entity(["id"], [], []);
    var ls := [Lote(role, "", []), Lote(other, "", [e])];
    var req := Request(role, "id", true, None);
    hide HasPrefix;
    assert ls[0] in ls && role in TypesOf(ls);
    assert ls[1..] == [ls[1]];
    assert role !in TypesOf(ls[1..]);
    assert Carries(e, "id") && Meets(rules, other, e.services, req);
    assert MetIn(rules, ls[1], req);
  }
}
