/** What an accepted did:webvh log guarantees. */
module WebvhHistory {
  import opened Options
  import opened Strings
  import opened WebvhParams
  import opened WebvhLog
  import Decimals
  import Base58

  // ---------------------------------------------------------------- the last versionId commits to the history

  ghost function Canonical(lib: Library, previous: string, body: seq<Byte>): seq<Byte> {
    lib.canonical(previous, body)
  }

  /** The canonical form tells predecessors and bodies apart. */
  ghost predicate Faithful(lib: Library) {
    forall p, b, q, c :: Canonical(lib, p, b) == Canonical(lib, q, c) ==> p == q && b == c
  }

  /** What entry i of a log is hashed over: the canonical form of its predecessor and its body. */
  ghost function Hashed(lib: Library, es: seq<Entry>, i: nat): seq<Byte>
    requires i < |es|
  {
    Canonical(lib, Previous(es, i), Body(lib, es[i]))
  }

  /** At entry i the two logs differ in the predecessor or in the body, and yet the digests agree. */
  ghost predicate CollideAt(lib: Library, es: seq<Entry>, fs: seq<Entry>, i: nat)
    requires i < |es| && i < |fs|
  {
    && (Previous(es, i) != Previous(fs, i) || Body(lib, es[i]) != Body(lib, fs[i]))
    && lib.sha256(Hashed(lib, es, i)) == lib.sha256(Hashed(lib, fs, i))
  }

  /** Some entry of the two logs does so. */
  ghost predicate Collide(lib: Library, es: seq<Entry>, fs: seq<Entry>) {
    exists i: nat :: i < |es| && i < |fs| && CollideAt(lib, es, fs, i)
  }

  ghost predicate SameUpTo(lib: Library, es: seq<Entry>, fs: seq<Entry>, n: nat)
    requires n <= |es| && n <= |fs|
  {
    forall i :: 0 <= i < n ==> es[i].versionId == fs[i].versionId && Body(lib, es[i]) == Body(lib, fs[i])
  }

  ghost predicate SameHistory(lib: Library, es: seq<Entry>, fs: seq<Entry>) {
    && |es| == |fs|
    && SameUpTo(lib, es, fs, |es|)
    && (es != [] ==> es[0].parameters.scid == fs[0].parameters.scid)
  }

  /** Equal entry hashes chain to the same predecessor and cover the same body, or the logs collide there. */
  lemma EqualHashes(lib: Library, es: seq<Entry>, fs: seq<Entry>, i: nat)
    requires i < |es| && i < |fs|
    requires EntryHash(lib, Previous(es, i), es[i]) == EntryHash(lib, Previous(fs, i), fs[i])
    ensures CollideAt(lib, es, fs, i) || (Previous(es, i) == Previous(fs, i) && Body(lib, es[i]) == Body(lib, fs[i]))
  {
    var x, y := lib.sha256(Hashed(lib, es, i)), lib.sha256(Hashed(lib, fs, i));
    var head: seq<Byte> := [0x12, 0x20];
    Base58.DecodeEncode(head + x);
    Base58.DecodeEncode(head + y);
    assert (head + x)[2..] == x && (head + y)[2..] == y;
    assert x == y;
  }

  lemma HashLinks(lib: Library, es: seq<Entry>, s: string, i: nat)
    requires Valid(lib, es, s) && i < |es|
    ensures EntryHash(lib, Previous(es, i), es[i]) == TrimPrefix(es[i].versionId, VersionPrefix(i + 1))
  {
    hide EntryHash, ProofOk, PreRotationOk, TimeOk, TrimPrefix, VersionPrefix, HasPrefix;
    assert FaultAt(lib, es, i, s) == None;
  }

  lemma {:induction false} ChainBack(lib: Library, es: seq<Entry>, fs: seq<Entry>, i: nat, s: string, t: string)
    requires Valid(lib, es, s) && Valid(lib, fs, t) && i < |es| && i < |fs|
    requires es[i].versionId == fs[i].versionId
    ensures Collide(lib, es, fs) || (SameUpTo(lib, es, fs, i + 1) && es[0].parameters.scid == fs[0].parameters.scid)
  {
    hide EntryHash, CollideAt, Body, Valid, TrimPrefix, VersionPrefix;
    HashLinks(lib, es, s, i);
    HashLinks(lib, fs, t, i);
    EqualHashes(lib, es, fs, i);
    if i > 0 && !CollideAt(lib, es, fs, i) {
      ChainBack(lib, es, fs, i - 1, s, t);
    }
  }

  lemma VersionNumber(lib: Library, es: seq<Entry>, s: string, i: nat)
    requires Valid(lib, es, s) && i < |es|
    ensures VersionPrefix(i + 1) <= es[i].versionId
  {
    hide EntryHash, ProofOk, PreRotationOk, TimeOk, Decimals.Decimal;
    assert FaultAt(lib, es, i, s) == None;
  }

  /** Two accepted logs that end in the same versionId are the same history, or two of their own entries at the same place
      are hashed alike although they differ: the last versionId fixes the length and every earlier versionId and body. */
  lemma LastVersionCommits(lib: Library, es: seq<Entry>, fs: seq<Entry>, s: string, t: string)
    requires Accepted(lib, es, s) && Accepted(lib, fs, t)
    requires es[|es| - 1].versionId == fs[|fs| - 1].versionId
    ensures Collide(lib, es, fs) || SameHistory(lib, es, fs)
  {
    hide FaultAt, Collide, Body, Contains, Decimals.Decimal;
    var v := es[|es| - 1].versionId;
    VersionNumber(lib, es, s, |es| - 1);
    VersionNumber(lib, fs, t, |fs| - 1);
    Decimals.DashedPrefixDeterminesNumber(|es|, |fs|, v);
    ChainBack(lib, es, fs, |es| - 1, s, t);
  }

  /** Where the canonical form is faithful to the two entries, the collision is one of the digest: two different inputs,
      taken from the logs, with one SHA-256. */
  lemma CollisionIsOfDigest(lib: Library, es: seq<Entry>, fs: seq<Entry>, s: string, t: string)
    requires Accepted(lib, es, s) && Accepted(lib, fs, t)
    requires es[|es| - 1].versionId == fs[|fs| - 1].versionId && !SameHistory(lib, es, fs)
    requires Faithful(lib)
    ensures exists i: nat :: i < |es| && i < |fs|
              && Hashed(lib, es, i) != Hashed(lib, fs, i) && lib.sha256(Hashed(lib, es, i)) == lib.sha256(Hashed(lib, fs, i))
  {
    hide Accepted, SameHistory, Body, Previous;
    LastVersionCommits(lib, es, fs, s, t);
    var i: nat :| i < |es| && i < |fs| && CollideAt(lib, es, fs, i);
    assert Hashed(lib, es, i) != Hashed(lib, fs, i);
  }

  // ---------------------------------------------------------------- order, keys, pre-rotation

  ghost function TimeOf(lib: Library, e: Entry): int {
    var t := lib.parseTime(e.versionTime);
    if t.Some? then t.value else 0
  }

  lemma TimeStep(lib: Library, es: seq<Entry>, s: string, i: nat)
    requires Valid(lib, es, s) && 0 < i < |es|
    ensures lib.parseTime(es[i - 1].versionTime).Some? && lib.parseTime(es[i].versionTime).Some?
    ensures TimeOf(lib, es[i - 1]) < TimeOf(lib, es[i])
  {
    hide EntryHash, ProofOk, PreRotationOk, HasPrefix, TrimPrefix, VersionPrefix, Multihash;
    assert FaultAt(lib, es, i - 1, s) == None && FaultAt(lib, es, i, s) == None;
  }

  lemma {:induction false} TimesIncrease(lib: Library, es: seq<Entry>, s: string, i: nat, j: nat)
    requires Valid(lib, es, s) && i < j < |es|
    ensures lib.parseTime(es[i].versionTime).Some? && lib.parseTime(es[j].versionTime).Some?
    ensures TimeOf(lib, es[i]) < TimeOf(lib, es[j])
  {
    hide Valid;
    TimeStep(lib, es, s, j);
    if i < j - 1 {
      TimesIncrease(lib, es, s, i, j - 1);
    }
  }

  lemma {:induction false} FirstKeyIsMember(lib: Library, keys: seq<string>, verificationMethod: string)
    requires FirstKey(lib, keys, verificationMethod).Some?
    ensures exists k :: k in keys && KeyMatches(k, verificationMethod)
                        && lib.decodeMultikey(k) == FirstKey(lib, keys, verificationMethod)
  {
    if !KeyMatches(keys[0], verificationMethod) {
      FirstKeyIsMember(lib, keys[1..], verificationMethod);
    }
  }

  /** k is an update key in force after entry i's own merge, and the entry's proof verifies under it. */
  ghost predicate SignedWith(lib: Library, es: seq<Entry>, i: nat, k: string)
    requires i < |es|
  {
    && k in ParamsUpTo(es, i + 1).updateKeys
    && es[i].proofs != []
    && KeyMatches(k, es[i].proofs[0].verificationMethod)
    && lib.decodeMultikey(k).Some?
    && lib.verifyProof(es[i], es[i].proofs[0], lib.decodeMultikey(k).value)
  }

  lemma EveryEntrySigned(lib: Library, es: seq<Entry>, s: string, i: nat)
    requires Valid(lib, es, s) && i < |es|
    ensures exists k :: SignedWith(lib, es, i, k)
  {
    hide EntryHash, PreRotationOk, TimeOk, KeyMatches, ParamsUpTo;
    assert FaultAt(lib, es, i, s) == None;
    FirstKeyIsMember(lib, ParamsUpTo(es, i + 1).updateKeys, es[i].proofs[0].verificationMethod);
    var k :| k in ParamsUpTo(es, i + 1).updateKeys && KeyMatches(k, es[i].proofs[0].verificationMethod)
             && lib.decodeMultikey(k) == FirstKey(lib, ParamsUpTo(es, i + 1).updateKeys, es[i].proofs[0].verificationMethod);
    assert SignedWith(lib, es, i, k);
  }

  /** Key hashes an entry declares bind the next entry: its keys, the one that signed it among them, were announced. */
  lemma PreRotationBinds(lib: Library, es: seq<Entry>, s: string, i: nat)
    requires Valid(lib, es, s) && 0 < i < |es|
    requires es[i - 1].parameters.nextKeyHashes.Some? && es[i - 1].parameters.nextKeyHashes.value != []
    ensures es[i].parameters.updateKeys != []
    ensures ParamsUpTo(es, i + 1).updateKeys == es[i].parameters.updateKeys
    ensures forall k :: SignedWith(lib, es, i, k) ==> Multihash(lib, lib.utf8(k)) in es[i - 1].parameters.nextKeyHashes.value
  {
    hide EntryHash, TimeOk, ProofOk, Multihash;
    assert FaultAt(lib, es, i, s) == None;
    assert es[..i + 1] == es[..i] + [es[i]];
    ParamsSnoc(es[..i], es[i]);
    assert (es[..i] + [es[i]])[..i + 1] == es[..i + 1];
  }

  lemma FoldNext(es: seq<Entry>, n: nat)
    requires n < |es|
    ensures ParamsUpTo(es, n + 1) == Merge(ParamsUpTo(es, n), es[n].parameters)
  {
    assert es[..n + 1] == es[..n] + [es[n]];
    ParamsSnoc(es[..n], es[n]);
    assert es[..n + 1][..n + 1] == es[..n + 1] && es[..n][..n] == es[..n];
  }

  /** The key hashes in force before entry i. */
  ghost function HashesInForce(es: seq<Entry>, i: nat): Option<seq<string>>
    requires i <= |es|
  {
    ParamsUpTo(es, i).nextKeyHashes
  }

  /** Entry i - 1 sets key hashes itself, or none are in force that demand anything. */
  ghost predicate CommitmentKept(es: seq<Entry>, i: nat)
    requires 0 < i <= |es|
  {
    || es[i - 1].parameters.nextKeyHashes.Some?
    || HashesInForce(es, i).None?
    || HashesInForce(es, i) == Some([])
  }

  /** Checking against either passes the same entries; checking against None passes all. */
  ghost predicate SameCheck(lib: Library, declared: Option<seq<string>>, other: Option<seq<string>>) {
    forall e :: PreRotationOk(lib, e, declared) == PreRotationOk(lib, e, other)
  }

  /** The check of entry i, made against what entry i - 1 itself carries, is the check against the hashes in force exactly
      when the commitment is kept. Otherwise it is no check at all. */
  lemma RotationCheckMeaning(lib: Library, es: seq<Entry>, i: nat)
    requires 0 < i <= |es|
    ensures SameCheck(lib, es[i - 1].parameters.nextKeyHashes, HashesInForce(es, i)) <==> CommitmentKept(es, i)
    ensures !CommitmentKept(es, i) ==> SameCheck(lib, es[i - 1].parameters.nextKeyHashes, None)
  {
    hide Multihash, ParamsUpTo;
    FoldNext(es, i - 1);
    if !CommitmentKept(es, i) {
      var e := Entry("", "", UNSET, Document("", []), []);
      assert !PreRotationOk(lib, e, HashesInForce(es, i));
      assert PreRotationOk(lib, e, es[i - 1].parameters.nextKeyHashes);
    }
  }

  /** In an accepted log, while the commitment is kept, every key that signs an entry was announced by the hashes in force. */
  lemma KeptCommitmentBinds(lib: Library, es: seq<Entry>, s: string, i: nat, k: string)
    requires Valid(lib, es, s) && 0 < i < |es| && CommitmentKept(es, i) && SignedWith(lib, es, i, k)
    requires HashesInForce(es, i).Some? && HashesInForce(es, i) != Some([])
    ensures Multihash(lib, lib.utf8(k)) in HashesInForce(es, i).value
  {
    hide Multihash, ParamsUpTo, Valid, SignedWith;
    FoldNext(es, i - 1);
    PreRotationBinds(lib, es, s, i);
  }

  /** In an accepted log the SCID is derived from the first entry and starts the hash chain. */
  lemma ScidAnchorsChain(lib: Library, es: seq<Entry>, s: string)
    requires Accepted(lib, es, s)
    ensures es[0].parameters.scid == s == Multihash(lib, lib.scidForm(es[0]))
    ensures EntryHash(lib, s, es[0]) == TrimPrefix(es[0].versionId, VersionPrefix(1))
  {
    hide ProofOk, PreRotationOk, TimeOk, Multihash, EntryHash;
    assert FaultAt(lib, es, 0, s) == None;
  }

  // ---------------------------------------------------------------- what pre-rotation does not cover

  /** A library whose hash is the identity on what it is given and whose signatures all verify. */
  ghost function ToyLibrary(): Library {
    Library((t, p, d) => [], (v, b) => [], e => [], k => if k == "old" then [] else [1], x => x,
            k => Some([]), (e, p, k) => true, t => Some(|t|), i => 100)
  }

  ghost function ToyScid(): string {
    Multihash(ToyLibrary(), [])
  }

  ghost function ToyEntry(version: string, time: string, p: Params, key: string): Entry {
    var h := Multihash(ToyLibrary(), []);
    Entry(version + h, time, p, Document(h, []),
          [Proof(Some("DataIntegrityProof"), "eddsa-jcs-2022", "assertionMethod", key, "z")])
  }

  ghost function Announce(): Params {
    UNSET.(scid := ToyScid(), updateKeys := ["old"], nextKeyHashes := Some([ToyScid()]), watchers := Some(["w"]))
  }

  /** Entry 1 announces the hash of "old", entry 2 announces nothing, entry 3 moves on to "new". */
  ghost function LapsingLog(): (es: seq<Entry>)
    ensures |es| == 3
  {
    [ ToyEntry("1-", "1", Announce(), "old"),
      ToyEntry("2-", "22", UNSET.(updateKeys := ["old"]), "old"),
      ToyEntry("3-", "333", UNSET.(updateKeys := ["new"]), "new") ]
  }

  lemma LapsingParams()
    ensures ParamsUpTo(LapsingLog(), 1) == Announce()
    ensures ParamsUpTo(LapsingLog(), 2) == Announce()
    ensures ParamsUpTo(LapsingLog(), 3).updateKeys == ["new"]
  {
    hide Multihash;
    var es := LapsingLog();
    assert es[..0] == [];
    assert ParamsUpTo(es, 0) == UNSET;
    hide ParamsUpTo;
    FoldNext(es, 0);
    FoldNext(es, 1);
    FoldNext(es, 2);
  }

  lemma ContainsItself(s: string)
    ensures Contains(s, s)
  {
    assert HasPrefix(s[0..], s);
  }

  lemma ToyVersion(n: nat, h: string)
    requires 1 <= n <= 3
    ensures VersionPrefix(n) == (if n == 1 then "1-" else if n == 2 then "2-" else "3-")
    ensures HasPrefix(VersionPrefix(n) + h, VersionPrefix(n)) && TrimPrefix(VersionPrefix(n) + h, VersionPrefix(n)) == h
  {
    assert Decimals.Decimal(1) == "1" && Decimals.Decimal(2) == "2" && Decimals.Decimal(3) == "3";
    var s := VersionPrefix(n) + h;
    assert s[..2] == VersionPrefix(n) && s[2..] == h;
  }

  lemma ToyProof(i: nat, key: string)
    requires i < 3 && key == (if i < 2 then "old" else "new")
    ensures KeyMatches(key, key) && ProofOk(ToyLibrary(), LapsingLog()[i], [key])
  {
    hide Multihash;
    ContainsItself(key);
    assert FirstKey(ToyLibrary(), [key], key) == Some([]);
  }

  lemma ToyRotation()
    ensures PreRotationOk(ToyLibrary(), LapsingLog()[1], LapsingLog()[0].parameters.nextKeyHashes)
    ensures PreRotationOk(ToyLibrary(), LapsingLog()[2], LapsingLog()[1].parameters.nextKeyHashes)
  {
    hide Multihash;
    assert ToyLibrary().utf8("old") == [];
  }

  lemma ToyTimes(i: nat)
    requires i < 3
    ensures TimeOk(ToyLibrary(), LapsingLog()[i], if i == 0 then None else Some(LapsingLog()[i - 1]), ToyLibrary().now(i))
  {
    hide Multihash;
  }

  lemma ToyHash(prev: string, i: nat)
    requires i < 3
    ensures EntryHash(ToyLibrary(), prev, LapsingLog()[i]) == Multihash(ToyLibrary(), [])
  {
    hide Multihash;
  }

  lemma ToyHashNonEmpty()
    ensures Multihash(ToyLibrary(), []) != ""
  {
    hide Base58.Encoded;
    Base58.NonEmptyText([0x12, 0x20] + ToyLibrary().sha256([]));
  }

  lemma ToyEntryPasses(i: nat)
    requires i < 3
    ensures FaultAt(ToyLibrary(), LapsingLog(), i, Multihash(ToyLibrary(), [])) == None
  {
    hide Multihash, ParamsUpTo, VersionPrefix, HasPrefix, TrimPrefix, ProofOk, PreRotationOk, TimeOk, EntryHash;
    LapsingParams();
    ToyVersion(i + 1, Multihash(ToyLibrary(), []));
    ToyProof(i, if i < 2 then "old" else "new");
    ToyRotation();
    ToyTimes(i);
    ToyHash(Previous(LapsingLog(), i), i);
    ToyHashNonEmpty();
    if i == 0 {
      assert Multihash(ToyLibrary(), ToyLibrary().scidForm(LapsingLog()[0])) == Multihash(ToyLibrary(), []);
    }
  }

  lemma NewKeyHash()
    ensures Multihash(ToyLibrary(), ToyLibrary().utf8("new")) != Multihash(ToyLibrary(), [])
  {
    hide Base58.Encoded;
    assert ToyLibrary().utf8("new") == [1];
    Base58.DecodeEncode([0x12, 0x20] + ToyLibrary().sha256([]));
    Base58.DecodeEncode([0x12, 0x20] + ToyLibrary().sha256([1]));
    assert ([0x12, 0x20] + ToyLibrary().sha256([]))[2..] == [];
    assert ([0x12, 0x20] + ToyLibrary().sha256([1]))[2..] == [1];
  }

  /** Only the entry right after a declaration is checked against it: the check reads the previous entry's own
      parameters, not the merged ones. Here entry 3 signs with a key that the hashes still in force leave out. */
  lemma PreRotationLapses()
    ensures Accepted(ToyLibrary(), LapsingLog(), Multihash(ToyLibrary(), []))
    ensures ParamsUpTo(LapsingLog(), 2).nextKeyHashes == Some([Multihash(ToyLibrary(), [])])
    ensures SignedWith(ToyLibrary(), LapsingLog(), 2, "new")
    ensures Multihash(ToyLibrary(), ToyLibrary().utf8("new")) != Multihash(ToyLibrary(), [])
  {
    hide Multihash, ParamsUpTo, FaultAt, KeyMatches, Contains;
    LapsingParams();
    forall i: nat | i < 3
      ensures FaultAt(ToyLibrary(), LapsingLog(), i, Multihash(ToyLibrary(), [])) == None
    {
      ToyEntryPasses(i);
    }
    ContainsItself(Multihash(ToyLibrary(), []));
    ToyProof(2, "new");
    NewKeyHash();
  }
}
