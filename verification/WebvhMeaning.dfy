/** What the checks on a did:webvh log come to, in terms of its entries' own text, keys and times. */
module WebvhMeaning {
  import opened Options
  import opened Strings
  import opened WebvhParams
  import opened WebvhLog
  import Decimals
  import Base58

  // ---------------------------------------------------------------- text

  lemma PrefixMeaning(s: string, prefix: string)
    ensures HasPrefix(s, prefix) <==> exists rest :: s == prefix + rest
    ensures forall rest :: s == prefix + rest ==> TrimPrefix(s, prefix) == rest
  {
    if HasPrefix(s, prefix) { assert s == prefix + s[|prefix|..]; }
    forall rest | s == prefix + rest ensures HasPrefix(s, prefix) && TrimPrefix(s, prefix) == rest {
      assert s[..|prefix|] == prefix && s[|prefix|..] == rest;
    }
  }

  lemma ContainsMeaning(s: string, sub: string)
    ensures Contains(s, sub) <==> exists a, b :: s == a + sub + b
  {
    if i :| 0 <= i <= |s| - |sub| && HasPrefix(s[i..], sub) {
      assert s == s[..i] + sub + s[i + |sub|..];
    }
    if a, b :| s == a + sub + b {
      assert s[|a|..][..|sub|] == sub;
    }
  }

  /** The multihash of data: base58 of the bytes 0x12 (SHA-256), 32 (its length) and the digest. */
  lemma MultihashDecodes(lib: Library, data: seq<Byte>)
    ensures Base58.Decoded(Multihash(lib, data)) == Some([18, 32] + lib.sha256(data))
  {
    Base58.DecodeEncode([18, 32] + lib.sha256(data));
  }

  ghost predicate IsMultihash(lib: Library, text: string, data: seq<Byte>) {
    Base58.Decoded(text) == Some([18, 32] + lib.sha256(data))
  }

  lemma OneMultihash(lib: Library, text: string, data: seq<Byte>)
    ensures IsMultihash(lib, text, data) <==> text == Multihash(lib, data)
  {
    MultihashDecodes(lib, data);
    if IsMultihash(lib, text, data) {
      Base58.EncodeDecode(text);
      Base58.EncodeDecode(Multihash(lib, data));
    }
  }

  // ---------------------------------------------------------------- the number and the hash

  /** versionId is the entry's number in decimals, a dash, and this text. */
  ghost predicate Numbered(e: Entry, n: nat, hash: string) {
    exists digits :: Decimals.IsNumeral(digits, n) && e.versionId == digits + "-" + hash
  }

  ghost predicate CarriesNumber(e: Entry, n: nat) {
    exists hash :: Numbered(e, n, hash)
  }

  lemma NumberedMeaning(e: Entry, n: nat)
    ensures HasPrefix(e.versionId, VersionPrefix(n)) <==> CarriesNumber(e, n)
    ensures forall hash :: Numbered(e, n, hash) ==> TrimPrefix(e.versionId, VersionPrefix(n)) == hash
  {
    hide HasPrefix, TrimPrefix;
    PrefixMeaning(e.versionId, VersionPrefix(n));
    Decimals.DecimalIsNumeral(n);
    var digits := Decimals.Decimal(n);
    if HasPrefix(e.versionId, VersionPrefix(n)) {
      var hash :| e.versionId == VersionPrefix(n) + hash;
      assert e.versionId == digits + "-" + hash;
      assert Numbered(e, n, hash);
    }
    forall hash | Numbered(e, n, hash) ensures e.versionId == VersionPrefix(n) + hash {
      var ds :| Decimals.IsNumeral(ds, n) && e.versionId == ds + "-" + hash;
      Decimals.NumeralIsDecimal(ds, n);
    }
  }

  /** The hash in versionId is the multihash of the canonical form with the predecessor's versionId, or the SCID, in its place. */
  ghost predicate HashedOver(lib: Library, e: Entry, n: nat, previous: string) {
    exists hash :: Numbered(e, n, hash)
      && IsMultihash(lib, hash, lib.canonical(previous, lib.body(e.versionTime, e.parameters, e.state)))
  }

  // ---------------------------------------------------------------- the signature

  /** The key, with or without "did:key:" in front, occurs in the verification method. */
  ghost predicate Mentions(verificationMethod: string, key: string) {
    || verificationMethod == key
    || exists id, a, b :: (key == "did:key:" + id || (key == id && !(exists t :: key == "did:key:" + t)))
         && verificationMethod == a + id + b
  }

  lemma MentionsMeaning(verificationMethod: string, key: string)
    ensures KeyMatches(key, verificationMethod) <==> Mentions(verificationMethod, key)
  {
    hide HasPrefix, TrimPrefix, Contains;
    PrefixMeaning(key, "did:key:");
    TrimOther(key, "did:key:");
    ContainsMeaning(verificationMethod, KeyId(key));
    if KeyMatches(key, verificationMethod) && verificationMethod != key {
      var a, b :| verificationMethod == a + KeyId(key) + b;
      if t :| key == "did:key:" + t { assert KeyId(key) == t; }
    }
  }

  lemma TrimOther(s: string, prefix: string)
    ensures !HasPrefix(s, prefix) ==> TrimPrefix(s, prefix) == s
  {
  }

  /** The first update key that the verification method mentions. */
  ghost predicate FirstMentioned(keys: seq<string>, verificationMethod: string, i: nat) {
    i < |keys| && Mentions(verificationMethod, keys[i]) && forall j :: 0 <= j < i ==> !Mentions(verificationMethod, keys[j])
  }

  /** The entry's first proof is well-formed and verifies under that key. */
  ghost predicate Signed(lib: Library, e: Entry, keys: seq<string>) {
    && e.proofs != []
    && var p := e.proofs[0];
       && p.proofType == Some("DataIntegrityProof") && p.cryptosuite == "eddsa-jcs-2022" && p.proofPurpose == "assertionMethod"
       && p.verificationMethod != "" && p.proofValue != ""
       && exists i: nat :: FirstMentioned(keys, p.verificationMethod, i) && VerifiesUnder(lib, e, p, keys[i])
  }

  ghost predicate VerifiesUnder(lib: Library, e: Entry, p: Proof, key: string) {
    var k := lib.decodeMultikey(key);
    k.Some? && lib.verifyProof(e, p, k.value)
  }

  lemma {:induction false} FirstKeyMeaning(lib: Library, e: Entry, p: Proof, keys: seq<string>)
    ensures (exists i: nat :: FirstMentioned(keys, p.verificationMethod, i) && VerifiesUnder(lib, e, p, keys[i]))
       <==> var key := FirstKey(lib, keys, p.verificationMethod); key.Some? && lib.verifyProof(e, p, key.value)
  {
    hide KeyMatches, Mentions;
    var vm := p.verificationMethod;
    if keys != [] {
      MentionsMeaning(vm, keys[0]);
      if Mentions(vm, keys[0]) {
        assert FirstMentioned(keys, vm, 0);
        assert forall i: nat :: FirstMentioned(keys, vm, i) ==> i == 0;
      } else {
        FirstKeyMeaning(lib, e, p, keys[1..]);
        forall i: nat ensures FirstMentioned(keys[1..], vm, i) <==> FirstMentioned(keys, vm, i + 1) {
          if FirstMentioned(keys[1..], vm, i) {
            assert forall j :: 1 <= j < i + 1 ==> keys[j] == keys[1..][j - 1];
          }
          if FirstMentioned(keys, vm, i + 1) {
            assert forall j :: 0 <= j < i ==> keys[1..][j] == keys[j + 1];
          }
        }
        assert forall i: nat :: FirstMentioned(keys, vm, i) ==> i > 0 && FirstMentioned(keys[1..], vm, i - 1);
      }
    }
  }

  lemma SignedMeaning(lib: Library, e: Entry, keys: seq<string>)
    ensures ProofOk(lib, e, keys) <==> Signed(lib, e, keys)
  {
    hide FirstMentioned, VerifiesUnder, FirstKey;
    if e.proofs != [] { FirstKeyMeaning(lib, e, e.proofs[0], keys); }
  }

  // ---------------------------------------------------------------- pre-rotation and time

  /** If the entry before declares key hashes, this one sets keys, and each has its multihash among them. */
  ghost predicate Rotates(lib: Library, e: Entry, before: Entry) {
    var declared := before.parameters.nextKeyHashes;
    declared.Some? && |declared.value| > 0 ==>
      && |e.parameters.updateKeys| > 0
      && forall k :: k in e.parameters.updateKeys ==> exists h :: h in declared.value && IsMultihash(lib, h, lib.utf8(k))
  }

  lemma RotatesMeaning(lib: Library, e: Entry, before: Entry)
    ensures PreRotationOk(lib, e, before.parameters.nextKeyHashes) <==> Rotates(lib, e, before)
  {
    hide Multihash, IsMultihash;
    forall k, h ensures IsMultihash(lib, h, lib.utf8(k)) <==> h == Multihash(lib, lib.utf8(k)) {
      OneMultihash(lib, h, lib.utf8(k));
    }
  }

  /** Its time can be read, is at most a minute ahead of the clock, and is later than that of the entry before, if that can be
      read. */
  ghost predicate Timely(lib: Library, es: seq<Entry>, i: nat)
    requires i < |es|
  {
    && lib.parseTime(es[i].versionTime).Some?
    && lib.parseTime(es[i].versionTime).value - lib.now(i) <= 60
    && (i > 0 && lib.parseTime(es[i - 1].versionTime).Some? ==>
          lib.parseTime(es[i - 1].versionTime).value < lib.parseTime(es[i].versionTime).value)
  }

  // ---------------------------------------------------------------- an entry, and a log

  /** The keys in force after the entry: those of the last entry up to it that sets any. */
  ghost predicate KeysInForce(es: seq<Entry>, i: nat, keys: seq<string>)
    requires i < |es|
  {
    || (exists j :: 0 <= j <= i && keys == es[j].parameters.updateKeys && keys != []
                    && forall k :: j < k <= i ==> es[k].parameters.updateKeys == [])
    || (keys == [] && forall k :: 0 <= k <= i ==> es[k].parameters.updateKeys == [])
  }

  ghost predicate SignedInForce(lib: Library, es: seq<Entry>, i: nat)
    requires i < |es|
  {
    exists keys :: KeysInForce(es, i, keys) && Signed(lib, es[i], keys)
  }

  lemma {:induction false} KeysMeaning(es: seq<Entry>, i: nat, keys: seq<string>)
    requires i < |es|
    ensures KeysInForce(es, i, keys) <==> keys == ParamsUpTo(es, i + 1).updateKeys
  {
    hide ParamsUpTo;
    KeysStep(es, i);
    if i > 0 {
      KeysMeaning(es, i - 1, keys);
    }
  }

  lemma KeysStep(es: seq<Entry>, i: nat)
    requires i < |es|
    ensures ParamsUpTo(es, i + 1).updateKeys
         == if es[i].parameters.updateKeys != [] then es[i].parameters.updateKeys
            else if i == 0 then [] else ParamsUpTo(es, i).updateKeys
  {
    assert es[..i + 1] == es[..i] + [es[i]];
    ParamsSnoc(es[..i], es[i]);
    assert es[..i + 1][..i + 1] == es[..i + 1] && es[..i][..i] == es[..i];
  }

  ghost predicate HashesTo(lib: Library, es: seq<Entry>, i: nat)
    requires i < |es|
  {
    HashedOver(lib, es[i], i + 1, if i == 0 then es[0].parameters.scid else es[i - 1].versionId)
  }

  lemma HashMeaning(lib: Library, es: seq<Entry>, i: nat)
    requires i < |es|
    ensures HashesTo(lib, es, i)
       <==> HasPrefix(es[i].versionId, VersionPrefix(i + 1))
            && EntryHash(lib, Previous(es, i), es[i]) == TrimPrefix(es[i].versionId, VersionPrefix(i + 1))
  {
    hide HasPrefix, TrimPrefix, VersionPrefix, Numbered, IsMultihash, Multihash;
    NumberedMeaning(es[i], i + 1);
    var data := lib.canonical(Previous(es, i), lib.body(es[i].versionTime, es[i].parameters, es[i].state));
    forall text ensures IsMultihash(lib, text, data) <==> text == Multihash(lib, data) {
      OneMultihash(lib, text, data);
    }
  }

  /** The eight checks on entry i, in the order in which they are made. */
  ghost predicate Check(lib: Library, es: seq<Entry>, i: nat, scid: string, k: nat)
    requires i < |es|
  {
    match k
    case 0 => CarriesNumber(es[i], i + 1)
    case 1 => i == 0 ==> es[0].parameters.scid != ""
    case 2 => i == 0 ==> es[0].parameters.scid == scid
    case 3 => i == 0 ==> IsMultihash(lib, es[0].parameters.scid, lib.scidForm(es[0]))
    case 4 => HashesTo(lib, es, i)
    case 5 => SignedInForce(lib, es, i)
    case 6 => i > 0 ==> Rotates(lib, es[i], es[i - 1])
    case _ => Timely(lib, es, i)
  }

  ghost predicate PassesAll(lib: Library, es: seq<Entry>, i: nat, scid: string)
    requires i < |es|
  {
    forall k: nat :: k < 8 ==> Check(lib, es, i, scid, k)
  }

  ghost function Codes(): seq<Fault> {
    [BadVersionNumber, MissingScid, ScidMismatch, ScidNotDerived, BadHash, BadProof, BadRotation, BadTime]
  }

  /** Check k is the first that entry i fails. */
  ghost predicate FirstFailed(lib: Library, es: seq<Entry>, i: nat, scid: string, k: nat)
    requires i < |es|
  {
    k < 8 && !Check(lib, es, i, scid, k) && forall j: nat :: j < k ==> Check(lib, es, i, scid, j)
  }

  /** An entry's fault is that of the first check it fails; it has none when it passes all. */
  lemma FaultIsFirstFailed(lib: Library, es: seq<Entry>, i: nat, scid: string)
    requires i < |es|
    ensures FaultAt(lib, es, i, scid).None? <==> PassesAll(lib, es, i, scid)
    ensures forall k: nat :: k < 8 ==> (FaultAt(lib, es, i, scid) == Some(Codes()[k]) <==> FirstFailed(lib, es, i, scid, k))
  {
    hide HasPrefix, TrimPrefix, VersionPrefix, Numbered, IsMultihash, Multihash, HashesTo, EntryHash, ProofOk, PreRotationOk, Signed,
         Rotates, SignedInForce, ParamsUpTo;
    NumberedMeaning(es[i], i + 1);
    OneMultihash(lib, es[0].parameters.scid, lib.scidForm(es[0]));
    HashMeaning(lib, es, i);
    InForceMeaning(lib, es, i);
    if i > 0 { RotatesMeaning(lib, es[i], es[i - 1]); }
    var c := (k: nat) => Check(lib, es, i, scid, k);
    assert c(0) && c(1) && c(2) && c(3) && c(4) && c(5) && c(6) && c(7) <==> forall k: nat :: k < 8 ==> Check(lib, es, i, scid, k);
  }

  lemma InForceMeaning(lib: Library, es: seq<Entry>, i: nat)
    requires i < |es|
    ensures SignedInForce(lib, es, i) <==> ProofOk(lib, es[i], ParamsUpTo(es, i + 1).updateKeys)
  {
    hide ProofOk, Signed, KeysInForce, ParamsUpTo;
    forall keys ensures KeysInForce(es, i, keys) <==> keys == ParamsUpTo(es, i + 1).updateKeys { KeysMeaning(es, i, keys); }
    SignedMeaning(lib, es[i], ParamsUpTo(es, i + 1).updateKeys);
  }
  /** An accepted log: it has an entry, every entry passes every check, and the last document's identifier contains the SCID. */
  lemma AcceptedMeaning(lib: Library, es: seq<Entry>, scid: string)
    ensures Accepted(lib, es, scid) <==>
              && es != [] && (exists a, b :: es[|es| - 1].state.id == a + scid + b)
              && forall i: nat :: i < |es| ==> PassesAll(lib, es, i, scid)
  {
    hide FaultAt, PassesAll, Contains;
    forall i: nat | i < |es| ensures FaultAt(lib, es, i, scid).None? <==> PassesAll(lib, es, i, scid) {
      FaultIsFirstFailed(lib, es, i, scid);
    }
    if es != [] { ContainsMeaning(es[|es| - 1].state.id, scid); }
  }

  /** The entries of a log are those of its lines that hold one, in order. */
  lemma {:induction false} EntriesInOrder(a: seq<Line>, b: seq<Line>, e: Entry)
    ensures Entries(a + b) == Entries(a) + Entries(b)
    ensures Entries([Parsed(e)]) == [e] && Entries([Blank]) == Entries([Garbage]) == []
  {
    assert [Parsed(e)][..0] == [] && [Blank][..0] == [] && [Garbage][..0] == [];
    if b == [] {
      assert a + b == a;
    } else {
      assert (a + b)[..|a + b| - 1] == a + b[..|b| - 1];
      EntriesInOrder(a, b[..|b| - 1], e);
    }
  }
}
