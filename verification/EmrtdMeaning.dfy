/** What the eMRTD registry checks, in terms of the request, the certificates and the loaded lists alone. */
module EmrtdMeaning {
  import opened Options
  import opened EmrtdChain
  import opened EmrtdSearch
  import opened EmrtdRequest

  // ---------------------------------------------------------------- the request

  /** The request is addressed to this registry. */
  ghost predicate Addressed(req: Request) {
    req.action == Some("emrtd-document-signer") && req.resourceType == "x5c" && req.subjectType == "key"
  }

  ghost predicate Complete(req: Request) {
    req.subjectId != "" && req.resourceId == req.subjectId && req.signingTime.Some? && req.key.Certs?
  }

  ghost predicate HasAnchors(r: Registry, country: string) {
    r.snap.Some? && country in r.snap.value.anchors && r.snap.value.anchors[country] != []
  }

  /** Every country in the document signer's subject is the claimed one. */
  ghost predicate CountriesAgree(r: Registry, country: string, dsc: Cert)
    requires country in r.alpha3ToAlpha2
  {
    forall c :: c in dsc.countries ==> r.fold(c) == r.fold(r.alpha3ToAlpha2[country])
  }

  /** The control is absent, as JSON null is, or one of the three modes. */
  ghost predicate ModeReadable(ctx: map<string, Value>) {
    "emrtd_path_len_mode" in ctx ==>
      ctx["emrtd_path_len_mode"] in {Null, Str("enforce"), Str("ignore"), Str("")}
  }

  ghost predicate HasOverride(ctx: map<string, Value>) {
    "emrtd_path_len_override" in ctx && ctx["emrtd_path_len_override"] != Null
  }

  /** The override, an integer that may be written as a float. */
  ghost predicate OverrideIs(ctx: map<string, Value>, n: int) {
    "emrtd_path_len_override" in ctx && ctx["emrtd_path_len_override"] in {Int(n), Float(n as real)}
  }

  ghost predicate OverrideReadable(ctx: map<string, Value>) {
    HasOverride(ctx) ==> exists n: nat :: OverrideIs(ctx, n)
  }

  ghost predicate Enforced(ctx: map<string, Value>) {
    HasOverride(ctx) || ("emrtd_path_len_mode" in ctx && ctx["emrtd_path_len_mode"] == Str("enforce"))
  }

  lemma PathLenRequested(ctx: map<string, Value>)
    ensures PathLenFromContext(ctx).Some? <==> ModeReadable(ctx) && OverrideReadable(ctx)
    ensures PathLenFromContext(ctx).Some? ==>
              var pl := PathLenFromContext(ctx).value;
              pl.enforce == Enforced(ctx) && pl.hasOver == HasOverride(ctx) && (pl.hasOver ==> OverrideIs(ctx, pl.override))
  {
    if HasOverride(ctx) {
      var over := ctx["emrtd_path_len_override"];
      if n: nat :| OverrideIs(ctx, n) {
        assert over.Float? ==> (n as real).Floor == n;
      }
      if over.Float? && over.x.Floor as real == over.x && over.x.Floor >= 0 {
        assert OverrideIs(ctx, over.x.Floor);
      }
      if over.Int? && over.n >= 0 { assert OverrideIs(ctx, over.n); }
    }
  }

  /** An override is one number. */
  lemma OneOverride(ctx: map<string, Value>, m: int, n: int)
    requires OverrideIs(ctx, m) && OverrideIs(ctx, n)
    ensures m == n
  {
    assert (m as real).Floor == m && (n as real).Floor == n;
  }

  /** Which requests reach the search, and with which code the others are denied. */
  lemma RequestChecked(r: Registry, req: Request)
    ensures var country := r.normalize(req.subjectId);
            var known := Addressed(req) && country in r.alpha3ToAlpha2;
            var anchored := known && Complete(req) && HasAnchors(r, country);
            && (PreCheck(r, req).None? <==>
                 anchored && CountriesAgree(r, country, req.key.dsc) && ModeReadable(req.context) && OverrideReadable(req.context))
            && (PreCheck(r, req) == Some(UnknownCountry) <==> Addressed(req) && !anchored && (known ==> Complete(req)))
            && (PreCheck(r, req) == Some(CountryMismatch) <==> anchored && !CountriesAgree(r, country, req.key.dsc))
            && (PreCheck(r, req).Some? ==> PreCheck(r, req).value in {MalformedRequest, UnknownCountry, CountryMismatch})
  {
    hide ModeReadable, OverrideReadable, PathLenFromContext;
    PathLenRequested(req.context);
    var country := r.normalize(req.subjectId);
    if country in r.alpha3ToAlpha2 && req.key.Certs? {
      var cs := req.key.dsc.countries;
      assert CountriesAgree(r, country, req.key.dsc) <==> forall i :: 0 <= i < |cs| ==> CountryMatches(r, country, cs[i]);
    }
  }

  // ---------------------------------------------------------------- the chain

  /** The parent is named as the issuer and its key made the signature, with an algorithm that is not refused. */
  ghost predicate Vouches(r: Registry, parent: Cert, child: Cert) {
    && (child.issuer.raw == parent.subject.raw || child.issuer.folded == parent.subject.folded)
    && child.alg !in {MD2WithRSA, MD5WithRSA, SHA1WithRSA, DSAWithSHA1, ECDSAWithSHA1}
    && r.verify(parent.raw, child.alg, child.tbs, child.signature)
  }

  /** Supplied certificates that may issue, are no anchors of the state, and vouch for the one before. */
  ghost predicate Links(r: Registry, req: Request, country: string, c: Path, n: nat)
    requires req.key.Certs? && n <= |c|
  {
    && (forall i :: 0 < i < n ==> c[i] in req.key.extras)
    && (forall i :: 0 < i < n ==> c[i].basicConstraintsValid && c[i].isCA && c[i].certSign)
    && (forall i, a :: 0 < i < n && HasAnchors(r, country) && a in r.snap.value.anchors[country] ==> a.raw != c[i].raw)
    && (forall i :: 0 < i < n ==> Vouches(r, c[i], c[i - 1]))
  }

  /** Two to five different certificates, from the document signer through such links to an anchor of the state that vouches for
      the last of them. */
  ghost predicate Connects(r: Registry, req: Request, country: string, c: Path)
    requires req.key.Certs?
  {
    && 2 <= |c| <= 5 && c[0] == req.key.dsc
    && (forall i, j :: 0 <= i < j < |c| ==> c[i].raw != c[j].raw)
    && Links(r, req, country, c, |c| - 1)
    && HasAnchors(r, country) && c[|c| - 1] in r.snap.value.anchors[country] && Vouches(r, c[|c| - 1], c[|c| - 2])
  }

  lemma AllStronger(a: SigAlg)
    ensures a.Stronger? <==> a !in {MD2WithRSA, MD5WithRSA, SHA1WithRSA, DSAWithSHA1, ECDSAWithSHA1}
  {
  }

  lemma SignedVouches(r: Registry, child: Cert, parent: Cert)
    ensures Signed(r.verify, child, parent) <==> Vouches(r, parent, child)
  {
    AllStronger(child.alg);
  }

  lemma LinksMeaning(r: Registry, req: Request, country: string, c: Path, n: nat)
    requires req.key.Certs? && 0 < n <= |c| && Distinct(c)
    ensures LinkPath(PoolFor(r, req, country), c[..n]) <==> Links(r, req, country, c, n)
  {
    hide Signed, Vouches, CanIssue, IsAnchor;
    var pool, path := PoolFor(r, req, country), c[..n];
    assert Distinct(path);
    forall i | 0 < i < n
      ensures Signed(r.verify, c[i - 1], c[i]) <==> Vouches(r, c[i], c[i - 1])
      ensures CanIssue(c[i]) <==> c[i].basicConstraintsValid && c[i].isCA && c[i].certSign
      ensures IsAnchor(pool, c[i]) <==> HasAnchors(r, country) && exists a :: a in r.snap.value.anchors[country] && a.raw == c[i].raw
    {
      SignedVouches(r, c[i - 1], c[i]);
      MayIssue(c[i]);
      AnchorMeaning(r, req, country, c[i]);
    }
  }

  lemma MayIssue(c: Cert)
    ensures CanIssue(c) <==> c.basicConstraintsValid && c.isCA && c.certSign
  {
  }

  lemma AnchorMeaning(r: Registry, req: Request, country: string, c: Cert)
    requires req.key.Certs?
    ensures IsAnchor(PoolFor(r, req, country), c)
       <==> HasAnchors(r, country) && exists a :: a in r.snap.value.anchors[country] && a.raw == c.raw
  {
    var pool := PoolFor(r, req, country);
    if HasAnchors(r, country) && exists a :: a in r.snap.value.anchors[country] && a.raw == c.raw {
      var a :| a in r.snap.value.anchors[country] && a.raw == c.raw;
      var i :| 0 <= i < |pool.anchors| && pool.anchors[i] == a;
    }
  }

  lemma ChainConnects(r: Registry, req: Request, country: string, c: Path)
    requires req.key.Certs?
    ensures IsChain(PoolFor(r, req, country), c) && c[0] == req.key.dsc <==> Connects(r, req, country, c)
  {
    hide Signed, Vouches, LinkPath, Links;
    if 2 <= |c| <= 5 && Distinct(c) {
      LinksMeaning(r, req, country, c, |c| - 1);
      SignedVouches(r, c[|c| - 2], c[|c| - 1]);
      assert PoolFor(r, req, country).anchors != [] <==> HasAnchors(r, country);
    }
  }

  // ---------------------------------------------------------------- name matches

  ghost predicate OnPath(q: Path, c: Cert) {
    exists x :: x in q && x.raw == c.raw
  }

  /** The candidate is not on the path already, and has the name of the issuer that the path ends with. */
  ghost predicate HasIssuerName(q: Path, c: Cert)
    requires q != []
  {
    var last := q[|q| - 1];
    !OnPath(q, c) && (last.issuer.raw == c.subject.raw || last.issuer.folded == c.subject.folded)
  }

  /** It has that name, is no anchor, and cannot be a link: it did not sign the last certificate or may not issue. */
  ghost predicate NamedButNoLink(r: Registry, country: string, q: Path, e: Cert)
    requires q != [] && HasAnchors(r, country)
  {
    && HasIssuerName(q, e)
    && (forall a :: a in r.snap.value.anchors[country] ==> a.raw != e.raw)
    && !(Vouches(r, e, q[|q| - 1]) && e.basicConstraintsValid && e.isCA && e.certSign)
  }

  /** A path of at most four certificates ends next to an anchor of the state that has its issuer's name, or, one of at most
      three, next to a supplied certificate that has it and cannot be a link. */
  ghost predicate EndsAtName(r: Registry, req: Request, country: string, q: Path)
    requires req.key.Certs?
  {
    && 1 <= |q| <= 4 && q[0] == req.key.dsc && Distinct(q) && Links(r, req, country, q, |q|)
    && HasAnchors(r, country)
    && (|| (exists a :: a in r.snap.value.anchors[country] && HasIssuerName(q, a))
        || (|q| <= 3 && exists e :: e in req.key.extras && NamedButNoLink(r, country, q, e)))
  }

  lemma NamedMeaning(r: Registry, req: Request, country: string, q: Path)
    requires req.key.Certs? && HasAnchors(r, country)
    ensures LinkPath(PoolFor(r, req, country), q) && q[0] == req.key.dsc && NamedAt(PoolFor(r, req, country), q)
       <==> EndsAtName(r, req, country, q)
  {
    hide Signed, Vouches, LinkPath, Links, CanIssue, IsAnchor, InPath, OnPath;
    if 1 <= |q| <= 4 {
      assert q[..|q|] == q;
      var pool := PoolFor(r, req, country);
      if Distinct(q) { LinksMeaning(r, req, country, q, |q|); }
      LinkPathIsDistinct(pool, q);
      forall c ensures InPath(q, c) <==> OnPath(q, c) { InPathMeaning(q, c); }
      forall e
        ensures IsAnchor(pool, e) <==> exists a :: a in r.snap.value.anchors[country] && a.raw == e.raw
        ensures Signed(r.verify, q[|q| - 1], e) <==> Vouches(r, e, q[|q| - 1])
        ensures CanIssue(e) <==> e.basicConstraintsValid && e.isCA && e.certSign
      {
        AnchorMeaning(r, req, country, e);
        SignedVouches(r, q[|q| - 1], e);
        MayIssue(e);
      }
    }
  }

  lemma LinkPathIsDistinct(pool: Pool, q: Path)
    ensures LinkPath(pool, q) ==> Distinct(q)
  {
  }

  lemma InPathMeaning(q: Path, c: Cert)
    ensures InPath(q, c) <==> OnPath(q, c)
  {
    if x :| x in q && x.raw == c.raw {
      var i :| 0 <= i < |q| && q[i] == x;
    }
  }

  ghost predicate ConnectsTo(r: Registry, req: Request, country: string)
    requires req.key.Certs?
  {
    exists c :: Connects(r, req, country, c)
  }

  /** Some other state has an anchor that completes a chain. */
  ghost predicate ConnectsElsewhere(r: Registry, req: Request)
    requires req.key.Certs?
  {
    r.snap.Some? && exists other :: other in r.snap.value.anchors && other != r.normalize(req.subjectId) && ConnectsTo(r, req, other)
  }

  ghost predicate NamesIssuer(r: Registry, req: Request, country: string)
    requires req.key.Certs?
  {
    exists q :: EndsAtName(r, req, country, q)
  }

  // ---------------------------------------------------------------- path lengths

  /** The intermediates below c[j] that are not self-issued. */
  ghost function Intermediates(c: Path, j: nat): set<nat>
    requires j <= |c|
  {
    set i: nat | 1 <= i < j && c[i].issuer.raw != c[i].subject.raw && c[i].issuer.folded != c[i].subject.folded
  }

  /** The limit a certificate sets for itself. */
  ghost predicate OwnLimit(c: Cert, n: int) {
    c.basicConstraintsValid && n == c.maxPathLen && (n > 0 || (n == 0 && c.maxPathLenZero))
  }

  /** The override if there is one, else the certificate's own limit. */
  ghost predicate LimitIs(ctx: map<string, Value>, c: Cert, n: int) {
    if HasOverride(ctx) then OverrideIs(ctx, n) else OwnLimit(c, n)
  }

  ghost predicate LengthKept(ctx: map<string, Value>, c: Path, j: nat)
    requires j < |c|
  {
    forall n :: LimitIs(ctx, c[j], n) ==> |Intermediates(c, j)| <= n
  }

  /** If the request's context asks for it, every issuer has at most as many of them below it as its limit says. */
  ghost predicate LengthsKept(ctx: map<string, Value>, c: Path) {
    Enforced(ctx) ==> forall j :: 1 <= j < |c| ==> LengthKept(ctx, c, j)
  }

  lemma NextIntermediate(c: Path, j: nat)
    requires 1 <= j < |c|
    ensures Intermediates(c, j + 1) == Intermediates(c, j) + (if SelfIssued(c[j]) then {} else {j})
    ensures j !in Intermediates(c, j)
  {
  }

  lemma {:induction false} BelowCounts(c: Path, j: nat)
    requires 1 <= j <= |c|
    ensures Below(c, j) == |Intermediates(c, j)|
  {
    if j == 1 {
      assert Intermediates(c, 1) == {};
    } else {
      BelowCounts(c, j - 1);
      NextIntermediate(c, j - 1);
      hide Intermediates, SelfIssued;
    }
  }

  lemma OwnLimitMeaning(c: Cert, n: int)
    ensures OwnLimit(c, n) <==> n == OwnPathLen(c) && n >= 0
  {
  }

  lemma LimitMeaning(ctx: map<string, Value>, c: Path, j: nat)
    requires PathLenFromContext(ctx).Some? && 1 <= j < |c|
    ensures LimitHolds(c, PathLenFromContext(ctx).value, j) <==> LengthKept(ctx, c, j)
  {
    hide Intermediates, Below, PathLenFromContext, OverrideIs, HasOverride, OwnLimit, OwnPathLen;
    var pl := PathLenFromContext(ctx).value;
    PathLenRequested(ctx);
    BelowCounts(c, j);
    var limit := Limit(c[j], pl);
    forall n ensures LimitIs(ctx, c[j], n) <==> n == limit && n >= 0 {
      if HasOverride(ctx) {
        if OverrideIs(ctx, n) { OneOverride(ctx, n, pl.override); }
      } else {
        OwnLimitMeaning(c[j], n);
      }
    }
    if limit >= 0 { assert LimitIs(ctx, c[j], limit); }
  }

  lemma LengthsMeaning(ctx: map<string, Value>, c: Path)
    requires PathLenFromContext(ctx).Some? && |c| >= 2
    ensures var pl := PathLenFromContext(ctx).value; (pl.enforce ==> Rfc5280PathLenOk(c, pl)) <==> LengthsKept(ctx, c)
  {
    hide Rfc5280PathLenOk, LimitHolds, PathLenFromContext, LengthKept, OverrideIs, HasOverride;
    PathLenRequested(ctx);
    PathLenMeaning(c, PathLenFromContext(ctx).value);
    forall j: nat | 1 <= j < |c| ensures LimitHolds(c, PathLenFromContext(ctx).value, j) <==> LengthKept(ctx, c, j) {
      LimitMeaning(ctx, c, j);
    }
  }

  // ---------------------------------------------------------------- times, key usage, revocation

  /** The certificate is valid when the document was signed. */
  ghost predicate ValidAt(c: Cert, at: int) {
    c.notBefore <= at && at <= c.notAfter
  }

  ghost predicate MaySignDocuments(c: Cert) {
    && !(c.basicConstraintsValid && c.isCA)
    && (c.hasKeyUsageExt ==> c.digitalSignature)
  }

  /** The certificate or anchor made the revocation list's signature. */
  ghost predicate MadeBy(r: Registry, crl: CrlData, c: Cert) {
    r.verify(c.raw, crl.list.alg, crl.list.tbs, crl.list.signature)
  }

  /** The list is in the name of the certificate's issuer, with an algorithm that is not refused, made by the issuer on the path
      or by an anchor of the state that has the list's name. */
  ghost predicate SpeaksOf(r: Registry, country: string, crl: CrlData, cert: Cert, issuer: Cert) {
    && (crl.list.issuer.raw == cert.issuer.raw || crl.list.issuer.folded == cert.issuer.folded)
    && crl.list.alg.Stronger?
    && (|| MadeBy(r, crl, issuer)
        || (r.snap.Some? && country in r.snap.value.anchors
            && exists a :: a in r.snap.value.anchors[country] && MadeBy(r, crl, a)
                 && (crl.list.issuer.raw == a.subject.raw || crl.list.issuer.folded == a.subject.folded)))
  }

  /** No such list, among those loaded for the state, names a certificate below the anchor. */
  ghost predicate Unrevoked(r: Registry, country: string, c: Path) {
    r.snap.Some? && country in r.snap.value.crls ==>
      forall i, crl :: 0 <= i < |c| - 1 && crl in r.snap.value.crls[country] && SpeaksOf(r, country, crl, c[i], c[i + 1]) ==>
        c[i].serial !in crl.list.revokedSerials
  }

  lemma RevokesMeaning(r: Registry, req: Request, crl: CrlData, cert: Cert, issuer: Cert)
    requires PreCheck(r, req).None?
    ensures Revokes(RulesFor(r, req), crl, cert, issuer)
       <==> SpeaksOf(r, r.normalize(req.subjectId), crl, cert, issuer) && cert.serial in crl.list.revokedSerials
  {
    hide PathLenFromContext, CountryMatches;
    var rules, country := RulesFor(r, req), r.normalize(req.subjectId);
    assert forall c: Cert :: SignedBy(rules.verify, crl, c.raw) <==> MadeBy(r, crl, c);
    assert rules.anchors == r.snap.value.anchors[country];
  }

  lemma UnrevokedMeaning(r: Registry, req: Request, c: Path)
    requires PreCheck(r, req).None? && |c| >= 2
    ensures RevokedBefore(RulesFor(r, req), c, |c| - 1) <==> !Unrevoked(r, r.normalize(req.subjectId), c)
  {
    hide Revokes, SpeaksOf, PathLenFromContext, CountryMatches;
    var rules := RulesFor(r, req);
    RevokedBeforeMeaning(rules, c, |c| - 1);
    forall i, crl | 0 <= i < |c| - 1 && crl in rules.crls
      ensures Revokes(rules, crl, c[i], c[i + 1])
         <==> SpeaksOf(r, r.normalize(req.subjectId), crl, c[i], c[i + 1]) && c[i].serial in crl.list.revokedSerials
    {
      RevokesMeaning(r, req, crl, c[i], c[i + 1]);
    }
  }

  // ---------------------------------------------------------------- the answer

  /** Everything asked of a chain besides its being one. */
  ghost predicate Passes(r: Registry, req: Request, c: Path)
    requires req.signingTime.Some? && |c| >= 2
  {
    && LengthsKept(req.context, c)
    && (forall i :: 0 <= i < |c| ==> ValidAt(c[i], req.signingTime.value))
    && MaySignDocuments(c[0])
    && Unrevoked(r, r.normalize(req.subjectId), c)
  }

  /** The chain, of certificates from the request to an anchor of the claimed state, that trust rests on. */
  ghost predicate Sound(r: Registry, req: Request, c: Path) {
    && req.key.Certs? && req.signingTime.Some?
    && Connects(r, req, r.normalize(req.subjectId), c)
    && Passes(r, req, c)
  }

  ghost predicate Trustworthy(r: Registry, req: Request) {
    exists c :: Sound(r, req, c)
  }

  /** The first certificate that is not valid at the signing time. */
  ghost predicate FirstInvalid(c: Path, at: int, i: nat) {
    i < |c| && !ValidAt(c[i], at) && forall k :: 0 <= k < i ==> ValidAt(c[k], at)
  }

  lemma {:induction false} TimeCodes(c: Path, at: int)
    ensures TimeVerdict(c, at).None? <==> forall i :: 0 <= i < |c| ==> ValidAt(c[i], at)
    ensures TimeVerdict(c, at) == Some(NotYetValid) <==> exists i: nat :: FirstInvalid(c, at, i) && at < c[i].notBefore
    ensures TimeVerdict(c, at) == Some(Expired) <==> exists i: nat :: FirstInvalid(c, at, i) && c[i].notBefore <= at
    ensures TimeVerdict(c, at).Some? ==> TimeVerdict(c, at).value in {NotYetValid, Expired}
  {
    if c != [] {
      TimeCodes(c[1..], at);
      if ValidAt(c[0], at) {
        forall i: nat ensures FirstInvalid(c[1..], at, i) <==> FirstInvalid(c, at, i + 1) {
          if FirstInvalid(c, at, i + 1) {
            assert forall k :: 0 <= k < i ==> c[1..][k] == c[k + 1];
          }
        }
        assert forall i: nat :: FirstInvalid(c, at, i) ==> i > 0;
        assert forall i: nat :: FirstInvalid(c, at, i) ==> FirstInvalid(c[1..], at, i - 1);
      } else {
        assert FirstInvalid(c, at, 0);
        assert forall i: nat :: FirstInvalid(c, at, i) ==> i == 0;
      }
    }
  }

  /** The verdict on a chain passes it exactly when it passes, and names the first reason it does not. */
  lemma VerdictCodes(r: Registry, req: Request, c: Path)
    requires PreCheck(r, req).None? && |c| >= 2
    ensures var denied, at := Verdict(RulesFor(r, req), c), req.signingTime.value;
            var timely := LengthsKept(req.context, c) && forall i :: 0 <= i < |c| ==> ValidAt(c[i], at);
            && (denied.None? <==> Passes(r, req, c))
            && (denied == Some(ChainInvalid) <==> !LengthsKept(req.context, c))
            && (denied == Some(NotYetValid) <==>
                 LengthsKept(req.context, c) && exists i: nat :: FirstInvalid(c, at, i) && at < c[i].notBefore)
            && (denied == Some(Expired) <==>
                 LengthsKept(req.context, c) && exists i: nat :: FirstInvalid(c, at, i) && c[i].notBefore <= at)
            && (denied == Some(BadKeyUsage) <==> timely && !MaySignDocuments(c[0]))
            && (denied == Some(Revoked) <==>
                 timely && MaySignDocuments(c[0]) && !Unrevoked(r, r.normalize(req.subjectId), c))
  {
    hide PathLenFromContext, Rfc5280PathLenOk, RevokedBefore, LengthsKept, Unrevoked, TimeVerdict, CountryMatches, FirstInvalid;
    LengthsMeaning(req.context, c);
    TimeCodes(c, req.signingTime.value);
    UnrevokedMeaning(r, req, c);
  }

  lemma AcceptableMeaning(r: Registry, req: Request, c: Path)
    requires PreCheck(r, req).None?
    ensures IsChain(PoolFor(r, req, r.normalize(req.subjectId)), c) && c[0] == req.key.dsc && Acceptable(RulesFor(r, req), c)
       <==> Sound(r, req, c)
  {
    hide Verdict, Acceptable, Passes, Connects, IsChain, PathLenFromContext, CountryMatches;
    ChainConnects(r, req, r.normalize(req.subjectId), c);
    if Connects(r, req, r.normalize(req.subjectId), c) {
      assert |c| >= 2 by { ConnectsTwo(r, req, r.normalize(req.subjectId), c); }
      VerdictCodes(r, req, c);
      VerdictMeaning(RulesFor(r, req), c);
    }
  }

  lemma ConnectsTwo(r: Registry, req: Request, country: string, c: Path)
    requires req.key.Certs? && Connects(r, req, country, c)
    ensures |c| >= 2
  {
  }

  /** What is searched for is a sound chain. */
  lemma TrustedMeaning(r: Registry, req: Request)
    requires PreCheck(r, req).None?
    ensures Trusted(r, req) <==> Trustworthy(r, req)
  {
    hide Sound, Acceptable, LinkPath, Signed, PathLenFromContext, CountryMatches;
    if c :| IsChain(PoolFor(r, req, r.normalize(req.subjectId)), c) && c[0] == req.key.dsc && Acceptable(RulesFor(r, req), c) {
      AcceptableMeaning(r, req, c);
    }
    if c :| Sound(r, req, c) {
      AcceptableMeaning(r, req, c);
    }
  }
}
