/** What the LoTE registry decides, in terms of the loaded lists, their entities and services alone. */
module LoteDecision {
  import opened Options
  import opened Strings
  import opened LoteIndex
  import opened LoteMeaning
  import opened LoteEvaluate

  // ---------------------------------------------------------------- services

  /** The character spells the lower-case letter: as it is, as its capital, or as the dotted capital I. */
  ghost predicate Spells(c: char, letter: char)
    requires 'a' <= letter <= 'z'
  {
    c == letter || c as int == letter as int - 32 || (letter == 'i' && c == '\U{0130}')
  }

  /** At this place the status spells "withdrawn". */
  ghost predicate SpellsWithdrawn(status: string, at: nat) {
    var w := "withdrawn";
    at + 9 <= |status| && forall k :: 0 <= k < 9 ==> Spells(status[at + k], w[k])
  }

  lemma SpellsMeaning(c: char, letter: char)
    requires letter in "withdrawn"
    ensures LowerChar(c) == letter <==> Spells(c, letter)
  {
  }

  lemma WithdrawnMeaning(status: string)
    ensures IsWithdrawn(status) <==> exists at: nat :: SpellsWithdrawn(status, at)
  {
    hide LowerChar, Spells;
    var t, w := Lower(status), "withdrawn";
    forall at: nat | at + 9 <= |status|
      ensures HasPrefix(t[at..], w) <==> SpellsWithdrawn(status, at)
    {
      assert HasPrefix(t[at..], w) <==> forall k :: 0 <= k < 9 ==> t[at..][k] == w[k] by {
        if HasPrefix(t[at..], w) { assert forall k :: 0 <= k < 9 ==> t[at..][..9][k] == w[k]; }
        if forall k :: 0 <= k < 9 ==> t[at..][k] == w[k] { assert t[at..][..9] == w; }
      }
      forall k | 0 <= k < 9 ensures t[at..][k] == w[k] <==> Spells(status[at + k], w[k]) {
        assert w[k] in w && t[at..][k] == LowerChar(status[at + k]);
        SpellsMeaning(status[at + k], w[k]);
      }
    }
    if at: nat :| SpellsWithdrawn(status, at) { assert HasPrefix(t[at..], w); }
  }

  /** The entity's identifier: its first information URI, else its first name, else nothing. */
  ghost predicate IdentifiedBy(e: Entity, id: string) {
    || (|e.informationUris| > 0 && id == e.informationUris[0])
    || (|e.informationUris| == 0 && |e.names| > 0 && id == e.names[0])
    || (|e.informationUris| == 0 && |e.names| == 0 && id == "")
  }

  // ---------------------------------------------------------------- what a list must have

  /** A service with the status "notified" of Annex H of ETSI TS 119 602. */
  ghost predicate IsNotified(s: Service) {
    s.status == "http://uri.etsi.org/19602/" + "PubEAAProvidersList/" + "SvcStatus/notified"
  }

  /** The service has the key, and its status counts: in a list of public attestation providers it is notified, in another list
      it does not spell "withdrawn". */
  ghost predicate HasKey(rules: Rules, l: Lote, s: Service, h: string) {
    && h in s.identities
    && (if rules.pubEaa(l.schemeType) then IsNotified(s) else !exists at: nat :: SpellsWithdrawn(s.status, at))
  }

  /** The list has an entity with the subject's identifier. Where a key is bound, one of its services has it; where none is, the
      list must only be no list of public attestation providers, or one of the services is notified. */
  ghost predicate ListGrants(rules: Rules, l: Lote, req: Request) {
    exists e :: e in l.entities && EntityGrants(rules, l, e, req)
  }

  ghost predicate EntityGrants(rules: Rules, l: Lote, e: Entity, req: Request) {
    && IdentifiedBy(e, req.subject)
    && if req.resolutionOnly then rules.pubEaa(l.schemeType) ==> exists s :: s in e.services && IsNotified(s)
       else req.keyHash.Some? && exists s :: s in e.services && HasKey(rules, l, s, req.keyHash.value)
  }

  lemma EntityGrantsMeaning(rules: Rules, l: Lote, e: Entity, req: Request)
    ensures Carries(e, req.subject) && Meets(rules, l.schemeType, e.services, req) <==> EntityGrants(rules, l, e, req)
  {
    hide IsWithdrawn, SpellsWithdrawn;
    forall s ensures Earns(rules, l.schemeType, s, req) <==>
      if req.resolutionOnly then IsNotified(s) else req.keyHash.Some? && HasKey(rules, l, s, req.keyHash.value)
    {
      WithdrawnMeaning(s.status);
    }
    hide Earns, IsNotified, HasKey;
  }

  lemma ListGrantsMeaning(rules: Rules, l: Lote, req: Request)
    ensures MetIn(rules, l, req) <==> ListGrants(rules, l, req)
  {
    hide Carries, Meets, EntityGrants;
    forall e ensures Carries(e, req.subject) && Meets(rules, l.schemeType, e.services, req) <==> EntityGrants(rules, l, e, req) {
      EntityGrantsMeaning(rules, l, e, req);
    }
  }

  // ---------------------------------------------------------------- which lists count

  /** The role names the type of a loaded list, or has the form of a list type of TS 119 602. */
  ghost predicate NamesType(ls: seq<Lote>, role: string) {
    || (exists l :: l in ls && l.schemeType == role)
    || (exists rest :: role == "http://uri.etsi.org/19602/LoTEType/" + rest)
  }

  /** The types configured for the role, or else the type it names, or else any type. */
  ghost predicate Permits(rules: Rules, ls: seq<Lote>, role: string, schemeType: string) {
    if role == "" then true
    else if role in rules.roles && |rules.roles[role]| > 0 then schemeType in rules.roles[role]
    else NamesType(ls, role) ==> schemeType == role
  }

  lemma PrefixMeaning(role: string)
    ensures HasPrefix(role, LOTE_TYPE_PREFIX) <==> exists rest :: role == "http://uri.etsi.org/19602/LoTEType/" + rest
  {
    var p := "http://uri.etsi.org/19602/LoTEType/";
    if HasPrefix(role, p) { assert role == p + role[|p|..]; }
    if rest :| role == p + rest { assert role[..|p|] == p; }
  }

  lemma PermitsMeaning(rules: Rules, ls: seq<Lote>, role: string, schemeType: string)
    ensures TypeAllowed(RoleTypes(rules.roles, TypesOf(ls), role), schemeType) <==> Permits(rules, ls, role, schemeType)
  {
    hide HasPrefix;
    PrefixMeaning(role);
  }

  /** The request is granted exactly when a loaded list of a permitted type grants it. */
  lemma DecisionMeaning(rules: Rules, ls: seq<Lote>, req: Request)
    ensures Decision(rules, ls, req) <==>
              exists l :: l in ls && Permits(rules, ls, req.role, l.schemeType) && ListGrants(rules, l, req)
  {
    hide MetIn, ListGrants, RoleTypes, TypeAllowed, Permits;
    forall l ensures MetIn(rules, l, req) <==> ListGrants(rules, l, req) { ListGrantsMeaning(rules, l, req); }
    forall t ensures TypeAllowed(RoleTypes(rules.roles, TypesOf(ls), req.role), t) <==> Permits(rules, ls, req.role, t) {
      PermitsMeaning(rules, ls, req.role, t);
    }
  }

  /** A configured role: the list's type must be among those configured, whatever is loaded. */
  lemma ConfiguredRole(rules: Rules, ls: seq<Lote>, req: Request)
    requires req.role != "" && req.role in rules.roles && rules.roles[req.role] != []
    ensures Decision(rules, ls, req) <==>
              exists l :: l in ls && l.schemeType in rules.roles[req.role] && ListGrants(rules, l, req)
  {
    hide ListGrants, Decision;
    DecisionMeaning(rules, ls, req);
  }

  /** Any other role that names a list type: the list's type must be that. */
  lemma TypeRole(rules: Rules, ls: seq<Lote>, req: Request)
    requires req.role != "" && !(req.role in rules.roles && rules.roles[req.role] != []) && NamesType(ls, req.role)
    ensures Decision(rules, ls, req) <==> exists l :: l in ls && l.schemeType == req.role && ListGrants(rules, l, req)
  {
    hide ListGrants, Decision, NamesType;
    DecisionMeaning(rules, ls, req);
  }

  /** No role, or one that names no list type: every list counts. */
  lemma UnlimitedRole(rules: Rules, ls: seq<Lote>, req: Request)
    requires req.role == "" || (!(req.role in rules.roles && rules.roles[req.role] != []) && !NamesType(ls, req.role))
    ensures Decision(rules, ls, req) <==> exists l :: l in ls && ListGrants(rules, l, req)
  {
    hide ListGrants, Decision, NamesType;
    DecisionMeaning(rules, ls, req);
  }
}
