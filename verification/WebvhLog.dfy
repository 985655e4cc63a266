/** Verification of a did:webvh log: one loop over hash-chained, signed entries. */
module WebvhLog {
  import opened Options
  import opened Strings
  import opened WebvhParams
  import Decimals
  import Base58

  type Byte = Base58.Byte

  /** The first Data Integrity proof of an entry; absent string members read as "". */
  datatype Proof = Proof(
    proofType: Option<string>, cryptosuite: string, proofPurpose: string, verificationMethod: string, proofValue: string)

  datatype Document = Document(id: string, rest: seq<Byte>)

  datatype Entry = Entry(
    versionId: string, versionTime: string, parameters: Params, state: Document, proofs: seq<Proof>)

  datatype Line = Blank | Garbage | Parsed(entry: Entry)

  /** Library calls. body is what an entry contributes to its canonical JSON apart from versionId and proof (fields at
      their zero value are omitted from it); canonical joins the two. */
  datatype Library = Library(
    body: (string, Params, Document) -> seq<Byte>, canonical: (string, seq<Byte>) -> seq<Byte>,
    scidForm: Entry -> seq<Byte>, utf8: string -> seq<Byte>, sha256: seq<Byte> -> seq<Byte>,
    decodeMultikey: string -> Option<seq<Byte>>, verifyProof: (Entry, Proof, seq<Byte>) -> bool,
    parseTime: string -> Option<int>, now: nat -> int)

  const MINUTE: int := 60

  // ---------------------------------------------------------------- the checks on one entry

  ghost function Multihash(lib: Library, data: seq<Byte>): string {
    Base58.Encoded([0x12, 0x20] + lib.sha256(data))
  }

  function Body(lib: Library, e: Entry): seq<Byte> {
    lib.body(e.versionTime, e.parameters, e.state)
  }

  ghost function EntryHash(lib: Library, prev: string, e: Entry): string {
    Multihash(lib, lib.canonical(prev, Body(lib, e)))
  }

  function KeyId(updateKey: string): string {
    TrimPrefix(updateKey, "did:key:")
  }

  predicate KeyMatches(updateKey: string, verificationMethod: string) {
    Contains(verificationMethod, KeyId(updateKey)) || updateKey == verificationMethod
  }

  /** The key of the first matching update key; None when none matches or the first match does not decode. */
  function FirstKey(lib: Library, keys: seq<string>, verificationMethod: string): Option<seq<Byte>> {
    if keys == [] then None
    else if KeyMatches(keys[0], verificationMethod) then lib.decodeMultikey(keys[0])
    else FirstKey(lib, keys[1..], verificationMethod)
  }

  predicate ProofWellFormed(p: Proof) {
    && p.proofType == Some("DataIntegrityProof")
    && p.cryptosuite == "eddsa-jcs-2022"
    && p.proofPurpose == "assertionMethod"
    && p.verificationMethod != "" && p.proofValue != ""
  }

  predicate ProofOk(lib: Library, e: Entry, keys: seq<string>) {
    && e.proofs != []
    && ProofWellFormed(e.proofs[0])
    && var key := FirstKey(lib, keys, e.proofs[0].verificationMethod);
       key.Some? && lib.verifyProof(e, e.proofs[0], key.value)
  }

  ghost predicate PreRotationOk(lib: Library, e: Entry, declared: Option<seq<string>>) {
    declared.Some? && declared.value != [] ==>
      && e.parameters.updateKeys != []
      && forall k :: k in e.parameters.updateKeys ==> Multihash(lib, lib.utf8(k)) in declared.value
  }

  predicate TimeOk(lib: Library, e: Entry, prev: Option<Entry>, now: int) {
    var t := lib.parseTime(e.versionTime);
    && t.Some? && t.value <= now + MINUTE
    && (prev.Some? && lib.parseTime(prev.value.versionTime).Some? ==> t.value > lib.parseTime(prev.value.versionTime).value)
  }

  datatype Fault = BadVersionNumber | MissingScid | ScidMismatch | ScidNotDerived | BadHash | BadProof | BadRotation | BadTime

  function VersionPrefix(n: nat): string {
    Decimals.Decimal(n) + "-"
  }

  ghost function ParametersOf(es: seq<Entry>): (ps: seq<Params>)
    ensures |ps| == |es| && forall i :: 0 <= i < |es| ==> ps[i] == es[i].parameters
  {
    if es == [] then [] else ParametersOf(es[..|es| - 1]) + [es[|es| - 1].parameters]
  }

  /** The parameters in force after the first n entries. */
  ghost function ParamsUpTo(es: seq<Entry>, n: nat): Params
    requires n <= |es|
  {
    Fold(ParametersOf(es[..n]))
  }

  /** What the entry's hash is chained to. */
  ghost function Previous(es: seq<Entry>, i: nat): string
    requires i < |es|
  {
    if i == 0 then es[0].parameters.scid else es[i - 1].versionId
  }

  /** The first check entry i fails, given the entries before it. */
  ghost function FaultAt(lib: Library, es: seq<Entry>, i: nat, expectedScid: string): Option<Fault>
    requires i < |es|
  {
    var e := es[i];
    if !HasPrefix(e.versionId, VersionPrefix(i + 1)) then Some(BadVersionNumber)
    else if i == 0 && e.parameters.scid == "" then Some(MissingScid)
    else if i == 0 && e.parameters.scid != expectedScid then Some(ScidMismatch)
    else if i == 0 && Multihash(lib, lib.scidForm(e)) != e.parameters.scid then Some(ScidNotDerived)
    else if EntryHash(lib, Previous(es, i), e) != TrimPrefix(e.versionId, VersionPrefix(i + 1)) then Some(BadHash)
    else if !ProofOk(lib, e, ParamsUpTo(es, i + 1).updateKeys) then Some(BadProof)
    else if i > 0 && !PreRotationOk(lib, e, es[i - 1].parameters.nextKeyHashes) then Some(BadRotation)
    else if !TimeOk(lib, e, if i == 0 then None else Some(es[i - 1]), lib.now(i)) then Some(BadTime)
    else None
  }

  /** Every entry passes every check. */
  ghost predicate Valid(lib: Library, es: seq<Entry>, expectedScid: string) {
    forall i: nat :: i < |es| ==> FaultAt(lib, es, i, expectedScid) == None
  }

  /** What a caller needs to hold of a log that was accepted. */
  ghost predicate Accepted(lib: Library, es: seq<Entry>, expectedScid: string) {
    es != [] && Valid(lib, es, expectedScid) && Contains(es[|es| - 1].state.id, expectedScid)
  }

  lemma ParamsSnoc(es: seq<Entry>, e: Entry)
    ensures ParamsUpTo(es + [e], |es| + 1) == Merge(ParamsUpTo(es, |es|), e.parameters)
  {
    assert (es + [e])[..|es| + 1] == es + [e] && es[..|es|] == es;
    assert (es + [e])[..|es|] == es;
    var ps := ParametersOf(es + [e]);
    assert ps[..|ps| - 1] == ParametersOf(es);
  }

  /** A check looks at nothing that comes later. */
  lemma FaultLocal(lib: Library, es: seq<Entry>, fs: seq<Entry>, i: nat, expectedScid: string)
    requires i < |es| && i < |fs| && es[..i + 1] == fs[..i + 1]
    ensures FaultAt(lib, es, i, expectedScid) == FaultAt(lib, fs, i, expectedScid)
  {
    assert es[i] == es[..i + 1][i] && fs[i] == fs[..i + 1][i];
    if i > 0 {
      assert es[i - 1] == es[..i + 1][i - 1] && fs[i - 1] == fs[..i + 1][i - 1];
    }
  }

  // ---------------------------------------------------------------- the code

  method CalculateMultihash(lib: Library, data: seq<Byte>) returns (s: string)
    ensures s == Multihash(lib, data)
  {
    s := Base58.Encode([0x12, 0x20] + lib.sha256(data));
  }

  method FindPublicKey(lib: Library, keys: seq<string>, verificationMethod: string) returns (key: Option<seq<Byte>>)
    ensures key == FirstKey(lib, keys, verificationMethod)
  {
    for i := 0 to |keys|
      invariant FirstKey(lib, keys, verificationMethod) == FirstKey(lib, keys[i..], verificationMethod)
    {
      assert keys[i..][1..] == keys[i + 1..];
      if KeyMatches(keys[i], verificationMethod) {
        return lib.decodeMultikey(keys[i]);
      }
    }
    return None;
  }

  method VerifyProof(lib: Library, e: Entry, keys: seq<string>) returns (ok: bool)
    ensures ok == ProofOk(lib, e, keys)
  {
    if e.proofs == [] || !ProofWellFormed(e.proofs[0]) {
      return false;
    }
    var key := FindPublicKey(lib, keys, e.proofs[0].verificationMethod);
    return key.Some? && lib.verifyProof(e, e.proofs[0], key.value);
  }

  method VerifyPreRotation(lib: Library, e: Entry, declared: Option<seq<string>>) returns (ok: bool)
    ensures ok == PreRotationOk(lib, e, declared)
  {
    hide Multihash;
    if declared.None? || declared.value == [] {
      return true;
    }
    var keys := e.parameters.updateKeys;
    if keys == [] {
      return false;
    }
    for i := 0 to |keys|
      invariant forall j :: 0 <= j < i ==> Multihash(lib, lib.utf8(keys[j])) in declared.value
    {
      var hash := CalculateMultihash(lib, lib.utf8(keys[i]));
      if hash !in declared.value {
        return false;
      }
    }
    return true;
  }

  /** The body of the log loop after the merge: current holds the parameters in force from this entry on. */
  method CheckEntry(lib: Library, es: seq<Entry>, e: Entry, current: CurrentParams, expectedScid: string)
    returns (fault: Option<Fault>)
    requires current.Value() == ParamsUpTo(es + [e], |es| + 1)
    ensures fault == FaultAt(lib, es + [e], |es|, expectedScid)
  {
    hide Multihash, PreRotationOk, ProofOk, TimeOk, Base58.Encoded;
    ghost var fs := es + [e];
    assert es != [] ==> fs[|es| - 1] == es[|es| - 1];
    var n := |es| + 1;
    if !HasPrefix(e.versionId, VersionPrefix(n)) {
      return Some(BadVersionNumber);
    }
    var prev: string;
    if n == 1 {
      FirstScid(e);
      assert fs[..1] == [e];
      if current.scid == "" {
        return Some(MissingScid);
      }
      if current.scid != expectedScid {
        return Some(ScidMismatch);
      }
      var derived := CalculateMultihash(lib, lib.scidForm(e));
      if derived != e.parameters.scid {
        return Some(ScidNotDerived);
      }
      prev := current.scid;
    } else {
      prev := es[|es| - 1].versionId;
    }
    var hash := CalculateMultihash(lib, lib.canonical(prev, Body(lib, e)));
    if hash != TrimPrefix(e.versionId, VersionPrefix(n)) {
      return Some(BadHash);
    }
    var proofOk := VerifyProof(lib, e, current.updateKeys);
    if !proofOk {
      return Some(BadProof);
    }
    if n > 1 {
      var rotationOk := VerifyPreRotation(lib, e, es[|es| - 1].parameters.nextKeyHashes);
      if !rotationOk {
        return Some(BadRotation);
      }
    }
    if !TimeOk(lib, e, if n == 1 then None else Some(es[|es| - 1]), lib.now(n - 1)) {
      return Some(BadTime);
    }
    return None;
  }

  lemma FirstScid(e: Entry)
    ensures Fold(ParametersOf([e])).scid == e.parameters.scid
  {
    assert ParametersOf([e]) == [e.parameters];
    assert [e.parameters][..0] == [];
  }

  datatype Failure = Unparsable | Faulty(index: nat, fault: Fault) | ReadError | EmptyLog | WrongDocument

  datatype Resolution =
    | Resolved(doc: Document, params: Params, created: string, updated: string, versionId: string)
    | Failed(failure: Failure)

  ghost function Entries(lines: seq<Line>): seq<Entry> {
    if lines == [] then []
    else Entries(lines[..|lines| - 1]) + if lines[|lines| - 1].Parsed? then [lines[|lines| - 1].entry] else []
  }

  lemma EntriesNext(lines: seq<Line>, k: nat)
    requires k < |lines|
    ensures Entries(lines[..k + 1]) == Entries(lines[..k]) + if lines[k].Parsed? then [lines[k].entry] else []
    ensures Entries(lines[..k + 1]) <= Entries(lines)
  {
    assert lines[..k + 1][..k] == lines[..k];
    EntriesGrow(lines, k + 1);
  }

  lemma EntriesGrow(lines: seq<Line>, k: nat)
    requires k <= |lines|
    ensures Entries(lines[..k]) <= Entries(lines)
  {
    if k == |lines| {
      assert lines[..k] == lines;
    } else {
      EntriesGrow(lines[..|lines| - 1], k);
      assert lines[..|lines| - 1][..k] == lines[..k];
    }
  }

  /** The lines up to line k are read without failure. */
  ghost predicate ReadsUpTo(lib: Library, lines: seq<Line>, expectedScid: string, k: nat)
    requires k <= |lines|
  {
    Garbage !in lines[..k] && Valid(lib, Entries(lines[..k]), expectedScid)
  }

  /** Which failure it is: that of the first line that cannot be read or whose entry has a fault, or what is wrong with a log in
      which there is none. */
  ghost predicate FailsWith(lib: Library, lines: seq<Line>, readError: bool, expectedScid: string, f: Failure) {
    match f
    case Unparsable => exists k :: 0 <= k < |lines| && lines[k] == Garbage && ReadsUpTo(lib, lines, expectedScid, k)
    case Faulty(index, fault) =>
      exists k :: 0 <= k < |lines| && lines[k].Parsed? && ReadsUpTo(lib, lines, expectedScid, k)
        && index == |Entries(lines[..k])| < |Entries(lines)|
        && FaultAt(lib, Entries(lines), index, expectedScid) == Some(fault)
    case ReadError => readError && ReadsUpTo(lib, lines, expectedScid, |lines|)
    case EmptyLog => !readError && ReadsUpTo(lib, lines, expectedScid, |lines|) && Entries(lines) == []
    case WrongDocument =>
      && !readError && ReadsUpTo(lib, lines, expectedScid, |lines|)
      && var es := Entries(lines); es != [] && !Contains(es[|es| - 1].state.id, expectedScid)
  }

  method ProcessDidLog(lib: Library, lines: seq<Line>, readError: bool, expectedScid: string) returns (res: Resolution)
    ensures res.Resolved? <==>
              !readError && Garbage !in lines && Accepted(lib, Entries(lines), expectedScid)
    ensures res.Resolved? ==>
              && var es := Entries(lines);
              && res.doc == es[|es| - 1].state && res.versionId == es[|es| - 1].versionId
              && res.created == es[0].versionTime && res.updated == es[|es| - 1].versionTime
              && res.params == ParamsUpTo(es, |es|)
    ensures res.Failed? ==> FailsWith(lib, lines, readError, expectedScid, res.failure)
  {
    hide FaultAt, Contains, Valid, ParamsUpTo;
    EmptyLogIsValid(lib, expectedScid);
    var entries: seq<Entry> := [];
    var current := new CurrentParams();
    var created, updated := "", "";
    for k := 0 to |lines|
      invariant entries == Entries(lines[..k])
      invariant current.Value() == ParamsUpTo(entries, |entries|)
      invariant (forall j :: 0 <= j < k ==> lines[j] != Garbage) && Valid(lib, entries, expectedScid)
      invariant entries != [] ==> created == entries[0].versionTime && updated == entries[|entries| - 1].versionTime
    {
      EntriesNext(lines, k);
      if lines[k].Blank? {
        continue;
      }
      if lines[k].Garbage? {
        assert ReadsUpTo(lib, lines, expectedScid, k);
        return Failed(Unparsable);
      }
      var e := lines[k].entry;
      var fault := MergeAndCheck(lib, entries, e, current, expectedScid, Entries(lines));
      if fault.Some? {
        assert ReadsUpTo(lib, lines, expectedScid, k) && lines[k].Parsed?;
        return Failed(Faulty(|entries|, fault.value));
      }
      if entries == [] {
        created := e.versionTime;
      }
      entries := entries + [e];
      updated := e.versionTime;
    }
    assert lines[..|lines|] == lines;
    if readError {
      return Failed(ReadError);
    }
    if entries == [] {
      return Failed(EmptyLog);
    }
    var last := entries[|entries| - 1];
    if !Contains(last.state.id, expectedScid) {
      return Failed(WrongDocument);
    }
    return Resolved(last.state, current.Value(), created, updated, last.versionId);
  }

  /** One turn of the log loop; all is the whole log. */
  method MergeAndCheck(lib: Library, es: seq<Entry>, e: Entry, current: CurrentParams, expectedScid: string, ghost all: seq<Entry>)
    returns (fault: Option<Fault>)
    requires current.Value() == ParamsUpTo(es, |es|)
    requires Valid(lib, es, expectedScid) && es + [e] <= all
    modifies current
    ensures current.Value() == ParamsUpTo(es + [e], |es + [e]|)
    ensures fault == FaultAt(lib, all, |es|, expectedScid)
    ensures fault == None ==> Valid(lib, es + [e], expectedScid)
    ensures fault != None ==> !Valid(lib, all, expectedScid)
    ensures forall j: nat :: j < |es| ==> FaultAt(lib, all, j, expectedScid) == None
  {
    hide FaultAt, Valid, ParamsUpTo;
    current.MergeFrom(e.parameters);
    ParamsSnoc(es, e);
    fault := CheckEntry(lib, es, e, current, expectedScid);
    ExtendValid(lib, es, e, all, expectedScid);
  }

  lemma EmptyLogIsValid(lib: Library, expectedScid: string)
    ensures Valid(lib, [], expectedScid) && ParamsUpTo([], 0) == UNSET
  {
  }

  /** Checking one entry more, inside the whole log. */
  lemma ExtendValid(lib: Library, es: seq<Entry>, e: Entry, all: seq<Entry>, expectedScid: string)
    requires Valid(lib, es, expectedScid) && es + [e] <= all
    ensures FaultAt(lib, all, |es|, expectedScid) == FaultAt(lib, es + [e], |es|, expectedScid)
    ensures FaultAt(lib, es + [e], |es|, expectedScid) == None ==> Valid(lib, es + [e], expectedScid)
    ensures FaultAt(lib, es + [e], |es|, expectedScid) != None ==> !Valid(lib, all, expectedScid)
    ensures forall j: nat :: j < |es| ==> FaultAt(lib, all, j, expectedScid) == None
  {
    hide FaultAt;
    var fs := es + [e];
    FaultLocal(lib, all, fs, |es|, expectedScid);
    forall j: nat | j < |es|
      ensures FaultAt(lib, fs, j, expectedScid) == None && FaultAt(lib, all, j, expectedScid) == None
    {
      assert es[..j + 1] == fs[..j + 1] == all[..j + 1];
      FaultLocal(lib, es, fs, j, expectedScid);
      FaultLocal(lib, es, all, j, expectedScid);
    }
  }
}
