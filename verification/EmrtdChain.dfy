/** Rules a candidate eMRTD certificate path must meet: signatures, path length, validity, key usage, revocation.
    Signature verification is a parameter; a parsed certificate's key is a function of its DER encoding. */
module EmrtdChain {
  import opened Options
  import Decimals

  type Bytes = seq<int>

  datatype SigAlg = MD2WithRSA | MD5WithRSA | SHA1WithRSA | DSAWithSHA1 | ECDSAWithSHA1 | Stronger(id: int)

  /** A distinguished name: its DER bytes and its rendering after case folding. */
  datatype Name = Name(raw: Bytes, folded: string)

  datatype Cert = Cert(
    raw: Bytes, issuer: Name, subject: Name, alg: SigAlg, tbs: Bytes, signature: Bytes,
    basicConstraintsValid: bool, isCA: bool, maxPathLen: int, maxPathLenZero: bool,
    hasKeyUsageExt: bool, certSign: bool, digitalSignature: bool,
    notBefore: int, notAfter: int, serial: int, countries: seq<string>)

  /** CheckSignature: issuer DER, algorithm, signed bytes, signature. */
  type Verifier = (Bytes, SigAlg, Bytes, Bytes) -> bool

  datatype Code =
    | UnknownCountry | NoAnchor | ChainInvalid | CountryMismatch | Expired
    | NotYetValid | BadKeyUsage | Revoked | MalformedRequest

  // ---------------------------------------------------------------- single certificates

  predicate NamesEqual(a: Name, b: Name) {
    a.raw == b.raw || a.folded == b.folded
  }

  predicate WeakSigAlg(a: SigAlg) {
    !a.Stronger?
  }

  predicate Named(child: Cert, parent: Cert) {
    NamesEqual(child.issuer, parent.subject)
  }

  predicate Signed(verify: Verifier, child: Cert, parent: Cert) {
    && Named(child, parent)
    && !WeakSigAlg(child.alg)
    && verify(parent.raw, child.alg, child.tbs, child.signature)
  }

  predicate CanIssue(c: Cert) {
    c.basicConstraintsValid && c.isCA && c.certSign
  }

  predicate SelfIssued(c: Cert) {
    NamesEqual(c.issuer, c.subject)
  }

  function OwnPathLen(c: Cert): int {
    if !c.basicConstraintsValid then -1
    else if c.maxPathLen > 0 || (c.maxPathLen == 0 && c.maxPathLenZero) then c.maxPathLen
    else -1
  }

  // ---------------------------------------------------------------- path length

  datatype PathLenPolicy = PathLenPolicy(enforce: bool, override: int, hasOver: bool)

  /** The limit one issuer imposes; negative means none. */
  function Limit(c: Cert, pl: PathLenPolicy): int {
    if pl.hasOver then pl.override else OwnPathLen(c)
  }

  /** Step (m) of section 6.1.4 of RFC 5280: an issuer's limit lowers max_path_length. */
  function Tighten(limit: int, maxPathLength: int): int {
    if 0 <= limit < maxPathLength then limit else maxPathLength
  }

  /** Steps (l) and (m) of section 6.1.4 of RFC 5280 for path[i], path[i-1], ..., path[1], the document signer
      path[0] being the target certificate. */
  predicate Countdown(path: seq<Cert>, pl: PathLenPolicy, i: nat, maxPathLength: int)
    requires i < |path|
  {
    i == 0 ||
    var afterL := if SelfIssued(path[i]) then maxPathLength else maxPathLength - 1;
    (SelfIssued(path[i]) || maxPathLength > 0) &&
    Countdown(path, pl, i - 1, Tighten(Limit(path[i], pl), afterL))
  }

  /** Path-length processing of section 6.1 of RFC 5280, with the trust anchor's own limit applied before the first
      certificate. max_path_length starts at the number of certificates below the anchor (6.1.2 (k)). */
  predicate Rfc5280PathLenOk(path: seq<Cert>, pl: PathLenPolicy)
    requires |path| >= 2
  {
    var n := |path| - 1;
    Countdown(path, pl, n - 1, Tighten(Limit(path[n], pl), n))
  }

  /** Non-self-issued certificates among path[1..i], the intermediates below path[i]. */
  function Below(path: seq<Cert>, i: nat): (n: nat)
    requires 1 <= i <= |path|
    ensures n <= i - 1
  {
    if i == 1 then 0 else Below(path, i - 1) + (if SelfIssued(path[i - 1]) then 0 else 1)
  }

  predicate LimitHolds(path: seq<Cert>, pl: PathLenPolicy, j: nat)
    requires 1 <= j < |path|
  {
    Limit(path[j], pl) < 0 || Below(path, j) <= Limit(path[j], pl)
  }

  /** The top-down countdown from path[i] succeeds exactly when every limit below is respected and the number of
      counted certificates fits the budget it starts with. */
  lemma {:induction false} CountdownMeaning(path: seq<Cert>, pl: PathLenPolicy, i: nat, maxPathLength: int)
    requires i < |path| && maxPathLength >= 0
    ensures Countdown(path, pl, i, maxPathLength) <==>
            Below(path, i + 1) <= maxPathLength && forall j :: 1 <= j <= i ==> LimitHolds(path, pl, j)
  {
    if i > 0 {
      var afterL := if SelfIssued(path[i]) then maxPathLength else maxPathLength - 1;
      if afterL >= 0 {
        CountdownMeaning(path, pl, i - 1, Tighten(Limit(path[i], pl), afterL));
      }
      assert LimitHolds(path, pl, i) <==> Limit(path[i], pl) < 0 || Below(path, i) <= Limit(path[i], pl);
    }
  }

  lemma PathLenMeaning(path: seq<Cert>, pl: PathLenPolicy)
    requires |path| >= 2
    ensures Rfc5280PathLenOk(path, pl) <==> forall j :: 1 <= j < |path| ==> LimitHolds(path, pl, j)
  {
    var n := |path| - 1;
    CountdownMeaning(path, pl, n - 1, Tighten(Limit(path[n], pl), n));
    assert LimitHolds(path, pl, n) <==> Limit(path[n], pl) < 0 || Below(path, n) <= Limit(path[n], pl);
  }

  /** checkPathLen counts bottom-up and yet decides as the top-down countdown of RFC 5280 does. */
  method CheckPathLen(path: seq<Cert>, pl: PathLenPolicy) returns (denied: Option<Code>)
    requires |path| >= 2
    ensures denied == if pl.enforce && !Rfc5280PathLenOk(path, pl) then Some(ChainInvalid) else None
  {
    if !pl.enforce {
      return None;
    }
    PathLenMeaning(path, pl);
    var below := 0;
    var i := 1;
    while i < |path|
      invariant 1 <= i <= |path|
      invariant below == Below(path, i)
      invariant forall j :: 1 <= j < i ==> LimitHolds(path, pl, j)
    {
      var limit := OwnPathLen(path[i]);
      if pl.hasOver {
        limit := pl.override;
      }
      if limit >= 0 && below > limit {
        assert !LimitHolds(path, pl, i);
        return Some(ChainInvalid);
      }
      if !SelfIssued(path[i]) {
        below := below + 1;
      }
      i := i + 1;
    }
    return None;
  }

  // ---------------------------------------------------------------- revocation lists

  datatype RevocationList = RevocationList(
    issuer: Name, alg: SigAlg, tbs: Bytes, signature: Bytes, revokedSerials: seq<int>)

  /** A parsed CRL with its serial-number index. Its identity keys the signature memo, as the pointer does in Go. */
  class CrlData {
    const list: RevocationList
    const revoked: set<string>

    ghost predicate Indexed() {
      revoked == set s | s in list.revokedSerials :: Decimals.Signed(s)
    }

    constructor (list: RevocationList, revoked: set<string>)
      ensures this.list == list && this.revoked == revoked
    {
      this.list := list;
      this.revoked := revoked;
    }

    /** The indexed lookup is a linear scan of the entries. */
    predicate IsRevoked(serial: int)
      requires Indexed()
      ensures IsRevoked(serial) <==> serial in list.revokedSerials
    {
      assert Decimals.Signed(serial) in revoked ==> serial in list.revokedSerials by {
        if Decimals.Signed(serial) in revoked {
          var s :| s in list.revokedSerials && Decimals.Signed(s) == Decimals.Signed(serial);
          Decimals.SignedInjective(s, serial);
        }
      }
      Decimals.Signed(serial) in revoked
    }
  }

  method NewCrlData(list: RevocationList) returns (crl: CrlData)
    ensures fresh(crl) && crl.list == list && crl.Indexed()
  {
    var idx: set<string> := {};
    for i := 0 to |list.revokedSerials|
      invariant idx == set s | s in list.revokedSerials[..i] :: Decimals.Signed(s)
    {
      idx := idx + {Decimals.Signed(list.revokedSerials[i])};
      assert list.revokedSerials[..i + 1] == list.revokedSerials[..i] + [list.revokedSerials[i]];
    }
    assert list.revokedSerials[..|list.revokedSerials|] == list.revokedSerials;
    crl := new CrlData(list, idx);
  }

  /** Everything checkPath consults besides the path itself. */
  datatype Rules = Rules(verify: Verifier, at: int, crls: seq<CrlData>, anchors: seq<Cert>, pl: PathLenPolicy)

  predicate SignedBy(verify: Verifier, crl: CrlData, issuerRaw: Bytes) {
    verify(issuerRaw, crl.list.alg, crl.list.tbs, crl.list.signature)
  }

  /** The CRL speaks for its issuer name: signed by the certificate's issuer, or by a reviewed anchor of that name. */
  ghost predicate Authentic(r: Rules, crl: CrlData, pathIssuer: Cert) {
    || SignedBy(r.verify, crl, pathIssuer.raw)
    || exists a :: a in r.anchors && NamesEqual(crl.list.issuer, a.subject) && SignedBy(r.verify, crl, a.raw)
  }

  ghost predicate Revokes(r: Rules, crl: CrlData, cert: Cert, pathIssuer: Cert) {
    && NamesEqual(crl.list.issuer, cert.issuer)
    && !WeakSigAlg(crl.list.alg)
    && Authentic(r, crl, pathIssuer)
    && cert.serial in crl.list.revokedSerials
  }

  ghost predicate RevokedAt(r: Rules, path: seq<Cert>, i: nat)
    requires i + 1 < |path|
  {
    exists crl :: crl in r.crls && Revokes(r, crl, path[i], path[i + 1])
  }

  /** Some certificate among path[0..n) is revoked. */
  ghost predicate RevokedBefore(r: Rules, path: seq<Cert>, n: nat)
    requires n < |path|
  {
    n > 0 && (RevokedBefore(r, path, n - 1) || RevokedAt(r, path, n - 1))
  }

  lemma {:induction false} RevokedBeforeMeaning(r: Rules, path: seq<Cert>, n: nat)
    requires n < |path|
    ensures RevokedBefore(r, path, n) <==>
            exists i, crl :: 0 <= i < n && crl in r.crls && Revokes(r, crl, path[i], path[i + 1])
  {
    if n > 0 {
      RevokedBeforeMeaning(r, path, n - 1);
    }
  }

  lemma RevokedBeforeGrows(r: Rules, path: seq<Cert>, m: nat, n: nat)
    requires m <= n < |path| && RevokedBefore(r, path, m)
    ensures RevokedBefore(r, path, n)
  {
  }

  // ---------------------------------------------------------------- the verdict on a path

  function TimeVerdict(path: seq<Cert>, at: int): Option<Code> {
    if path == [] then None
    else if at < path[0].notBefore then Some(NotYetValid)
    else if at > path[0].notAfter then Some(Expired)
    else TimeVerdict(path[1..], at)
  }

  /** The denial checkPath gives, in the order it looks for one. */
  ghost function Verdict(r: Rules, path: seq<Cert>): Option<Code>
    requires |path| >= 2
  {
    if r.pl.enforce && !Rfc5280PathLenOk(path, r.pl) then Some(ChainInvalid)
    else if TimeVerdict(path, r.at).Some? then TimeVerdict(path, r.at)
    else if path[0].basicConstraintsValid && path[0].isCA then Some(BadKeyUsage)
    else if path[0].hasKeyUsageExt && !path[0].digitalSignature then Some(BadKeyUsage)
    else if RevokedBefore(r, path, |path| - 1) then Some(Revoked)
    else None
  }

  /** What the documentation promises of an accepted path, without any order of checks, memo or index. */
  ghost predicate Acceptable(r: Rules, path: seq<Cert>)
    requires |path| >= 2
  {
    && (r.pl.enforce ==> Rfc5280PathLenOk(path, r.pl))
    && (forall c :: c in path ==> c.notBefore <= r.at <= c.notAfter)
    && !(path[0].basicConstraintsValid && path[0].isCA)
    && (path[0].hasKeyUsageExt ==> path[0].digitalSignature)
    && (forall i, crl :: 0 <= i < |path| - 1 && crl in r.crls ==> !Revokes(r, crl, path[i], path[i + 1]))
  }

  lemma {:induction false} TimeVerdictMeaning(path: seq<Cert>, at: int)
    ensures TimeVerdict(path, at).None? <==> forall c :: c in path ==> c.notBefore <= at <= c.notAfter
  {
    if path != [] {
      TimeVerdictMeaning(path[1..], at);
      assert forall c :: c in path <==> c == path[0] || c in path[1..];
    }
  }

  lemma VerdictMeaning(r: Rules, path: seq<Cert>)
    requires |path| >= 2
    ensures Verdict(r, path).None? <==> Acceptable(r, path)
  {
    TimeVerdictMeaning(path, r.at);
    RevokedBeforeMeaning(r, path, |path| - 1);
  }
}
