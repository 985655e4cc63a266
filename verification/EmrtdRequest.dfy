/** The eMRTD request and registry, the checks that precede the search, and what is searched for. */
module EmrtdRequest {
  import opened Options
  import opened EmrtdChain
  import opened EmrtdSearch

  // ---------------------------------------------------------------- the request

  /** A value of the request context, as JSON decoding leaves it. */
  datatype Value = Null | Str(s: string) | Int(n: int) | Float(x: real) | Other

  const PATH_LEN_MODE := "emrtd_path_len_mode"
  const PATH_LEN_OVERRIDE := "emrtd_path_len_override"

  /** The certificates of resource.key, once decoded: Malformed stands for every parse or size error. */
  datatype Key = Malformed | Certs(dsc: Cert, extras: seq<Cert>)

  datatype Request = Request(
    action: Option<string>, resourceType: string, subjectType: string, subjectId: string, resourceId: string,
    signingTime: Option<int>, key: Key, context: map<string, Value>)

  datatype Snapshot = Snapshot(anchors: map<string, seq<Cert>>, crls: map<string, seq<CrlData>>)

  /** What the registry holds: the country table, name normalisation, signature checking, the loaded trust data. */
  datatype Registry = Registry(
    normalize: string -> string, fold: string -> string, alpha3ToAlpha2: map<string, string>,
    verify: Verifier, snap: Option<Snapshot>)

  datatype Response = Allow(chain: Path) | Deny(code: Code, stopped: bool)

  function Reject(code: Code): Response {
    Deny(code, false)
  }

  predicate CountryMatches(r: Registry, country: string, c: string) {
    country in r.alpha3ToAlpha2 && r.fold(r.alpha3ToAlpha2[country]) == r.fold(c)
  }

  function Anchors(r: Registry, country: string): seq<Cert> {
    if r.snap.Some? && country in r.snap.value.anchors then r.snap.value.anchors[country] else []
  }

  function Crls(r: Registry, country: string): seq<CrlData> {
    if r.snap.Some? && country in r.snap.value.crls then r.snap.value.crls[country] else []
  }

  /** pathLenFromContext; None is an error, so a malformed control never degrades to "ignore". */
  function PathLenFromContext(ctx: map<string, Value>): (pl: Option<PathLenPolicy>)
    ensures pl.Some? && pl.value.hasOver ==> pl.value.enforce && pl.value.override >= 0
    ensures pl.Some? && PATH_LEN_MODE in ctx && ctx[PATH_LEN_MODE] == Str("enforce") ==> pl.value.enforce
  {
    var mode := if PATH_LEN_MODE in ctx then ctx[PATH_LEN_MODE] else Null;
    var over := if PATH_LEN_OVERRIDE in ctx then ctx[PATH_LEN_OVERRIDE] else Null;
    if !(mode.Null? || mode == Str("enforce") || mode == Str("ignore") || mode == Str("")) then None
    else
      match over
      case Null => Some(PathLenPolicy(mode == Str("enforce"), 0, false))
      case Int(n) => if n < 0 then None else Some(PathLenPolicy(true, n, true))
      case Float(x) =>
        if x.Floor as real != x || x.Floor < 0 then None else Some(PathLenPolicy(true, x.Floor, true))
      case _ => None
  }

  /** The denials that precede the search. */
  function PreCheck(r: Registry, req: Request): Option<Code> {
    var country := r.normalize(req.subjectId);
    if req.action != Some("emrtd-document-signer") then Some(MalformedRequest)
    else if req.resourceType != "x5c" then Some(MalformedRequest)
    else if req.subjectType != "key" then Some(MalformedRequest)
    else if country !in r.alpha3ToAlpha2 then Some(UnknownCountry)
    else if req.resourceId == "" || req.resourceId != req.subjectId then Some(MalformedRequest)
    else if req.signingTime.None? then Some(MalformedRequest)
    else if req.key.Malformed? then Some(MalformedRequest)
    else if Anchors(r, country) == [] then Some(UnknownCountry)
    else if exists i :: 0 <= i < |req.key.dsc.countries| && !CountryMatches(r, country, req.key.dsc.countries[i])
    then Some(CountryMismatch)
    else if PathLenFromContext(req.context).None? then Some(MalformedRequest)
    else None
  }

  // ---------------------------------------------------------------- what the search is about

  function PoolFor(r: Registry, req: Request, country: string): Pool
    requires req.key.Certs?
  {
    Pool(r.verify, req.key.extras, Anchors(r, country))
  }

  function RulesFor(r: Registry, req: Request): Rules
    requires PreCheck(r, req).None?
  {
    var country := r.normalize(req.subjectId);
    Rules(r.verify, req.signingTime.value, Crls(r, country), Anchors(r, country), PathLenFromContext(req.context).value)
  }

  /** There is an acceptable chain from the presented document signer to an anchor of the claimed state. */
  ghost predicate Trusted(r: Registry, req: Request)
    requires PreCheck(r, req).None?
  {
    exists c :: IsChain(PoolFor(r, req, r.normalize(req.subjectId)), c) && c[0] == req.key.dsc && Acceptable(RulesFor(r, req), c)
  }

  ghost predicate ChainsTo(r: Registry, req: Request, country: string)
    requires req.key.Certs?
  {
    exists c :: IsChain(PoolFor(r, req, country), c) && c[0] == req.key.dsc
  }

  /** Another state's anchors would complete a structural chain. */
  ghost predicate ChainsElsewhere(r: Registry, req: Request)
    requires PreCheck(r, req).None?
  {
    exists other :: other in r.snap.value.anchors && other != r.normalize(req.subjectId) && ChainsTo(r, req, other)
  }

  /** Some link path from the document signer ends in a certificate that names its issuer. */
  ghost predicate NameMatched(r: Registry, req: Request)
    requires PreCheck(r, req).None?
  {
    exists q :: LinkPath(PoolFor(r, req, r.normalize(req.subjectId)), q) && q[0] == req.key.dsc
                && NamedAt(PoolFor(r, req, r.normalize(req.subjectId)), q)
  }
}
