/** What the last versionId of a did:webvh log says about the resolution, and what it leaves open. */
module WebvhCommit {
  import opened Options
  import opened Strings
  import opened WebvhParams
  import opened WebvhLog
  import opened WebvhHistory

  // ---------------------------------------------------------------- what is written

  /** An empty list is left out when an entry is written, as if it had not been set. */
  function Trim(list: Option<seq<string>>): Option<seq<string>> {
    if list == Some([]) then None else list
  }

  /** The parameters as they are hashed and signed. */
  function Written(p: Params): Params {
    p.(nextKeyHashes := Trim(p.nextKeyHashes), watchers := Trim(p.watchers))
  }

  function WrittenEntry(e: Entry): Entry {
    e.(parameters := Written(e.parameters))
  }

  ghost function BodyOf(lib: Library, time: string, p: Params, d: Document): seq<Byte> {
    lib.body(time, p, d)
  }

  /** The body tells times, written parameters and documents apart. */
  ghost predicate TellsApart(lib: Library) {
    forall t, p, d, u, q, e ::
      BodyOf(lib, t, p, d) == BodyOf(lib, u, q, e) ==> t == u && Written(p) == Written(q) && d == e
  }

  /** What is hashed and signed is the written entry. */
  ghost predicate OmitsEmpty(lib: Library) {
    && (forall t, p, d :: BodyOf(lib, t, p, d) == BodyOf(lib, t, Written(p), d))
    && (forall e :: lib.scidForm(e) == lib.scidForm(WrittenEntry(e)))
    && (forall e, proof, key :: lib.verifyProof(e, proof, key) == lib.verifyProof(WrittenEntry(e), proof, key))
  }

  // ---------------------------------------------------------------- folding parameters that are written alike

  ghost predicate Alike(ps: seq<Params>, qs: seq<Params>) {
    |ps| == |qs| && forall i :: 0 <= i < |ps| ==> Written(ps[i]) == Written(qs[i])
  }

  /** The parameters without the two lists that tell "set to nothing" from "not set". */
  function Rest(p: Params): Params {
    p.(nextKeyHashes := None, watchers := None)
  }

  /** The same list, or there is none on one of the sides. */
  predicate ListsAgree(a: Option<seq<string>>, b: Option<seq<string>>) {
    Trim(a) == Trim(b) || Trim(a).None? || Trim(b).None?
  }

  lemma {:induction false} FoldAlike(ps: seq<Params>, qs: seq<Params>)
    requires Alike(ps, qs)
    ensures Rest(Fold(ps)) == Rest(Fold(qs))
    ensures ListsAgree(Fold(ps).watchers, Fold(qs).watchers)
    ensures ListsAgree(Fold(ps).nextKeyHashes, Fold(qs).nextKeyHashes)
  {
    if ps != [] {
      var n := |ps| - 1;
      assert Alike(ps[..n], qs[..n]);
      FoldAlike(ps[..n], qs[..n]);
      var a, b, p, q := Fold(ps[..n]), Fold(qs[..n]), ps[n], qs[n];
      assert Written(p) == Written(q);
      MergeAlike(a, b, p, q);
    }
  }

  lemma MergeAlike(a: Params, b: Params, p: Params, q: Params)
    requires Rest(a) == Rest(b) && Written(p) == Written(q)
    requires ListsAgree(a.watchers, b.watchers) && ListsAgree(a.nextKeyHashes, b.nextKeyHashes)
    ensures Rest(Merge(a, p)) == Rest(Merge(b, q))
    ensures ListsAgree(Merge(a, p).watchers, Merge(b, q).watchers)
    ensures ListsAgree(Merge(a, p).nextKeyHashes, Merge(b, q).nextKeyHashes)
  {
    assert Rest(Written(p)) == Rest(p) && Rest(Written(q)) == Rest(q);
    assert Rest(Merge(a, p)) == Rest(Merge(Rest(a), Rest(p)));
    assert Rest(Merge(b, q)) == Rest(Merge(Rest(b), Rest(q)));
  }

  // ---------------------------------------------------------------- what the last versionId says about the resolution

  /** Entry by entry the two logs differ in nothing that is written but the proofs. */
  ghost predicate EntriesAgree(es: seq<Entry>, fs: seq<Entry>) {
    |es| == |fs| && forall i :: 0 <= i < |es| ==>
      && es[i].versionId == fs[i].versionId && es[i].versionTime == fs[i].versionTime && es[i].state == fs[i].state
      && Written(es[i].parameters) == Written(fs[i].parameters)
  }

  lemma SameHistoryAgrees(lib: Library, es: seq<Entry>, fs: seq<Entry>)
    requires SameHistory(lib, es, fs) && TellsApart(lib)
    ensures EntriesAgree(es, fs)
  {
    forall i | 0 <= i < |es|
      ensures es[i].versionTime == fs[i].versionTime && es[i].state == fs[i].state
      ensures Written(es[i].parameters) == Written(fs[i].parameters)
    {
      var e, f := es[i], fs[i];
      assert Body(lib, e) == Body(lib, f);
      assert BodyOf(lib, e.versionTime, e.parameters, e.state) == BodyOf(lib, f.versionTime, f.parameters, f.state);
    }
  }

  /** No entry sets one of the two lists to an empty one. */
  ghost predicate NoEmptyLists(es: seq<Entry>) {
    forall i :: 0 <= i < |es| ==> es[i].parameters.watchers != Some([]) && es[i].parameters.nextKeyHashes != Some([])
  }

  lemma AgreeingParams(es: seq<Entry>, fs: seq<Entry>, n: nat)
    requires EntriesAgree(es, fs) && n <= |es|
    ensures Rest(ParamsUpTo(es, n)) == Rest(ParamsUpTo(fs, n))
    ensures ListsAgree(ParamsUpTo(es, n).watchers, ParamsUpTo(fs, n).watchers)
    ensures ListsAgree(ParamsUpTo(es, n).nextKeyHashes, ParamsUpTo(fs, n).nextKeyHashes)
    ensures NoEmptyLists(es) && NoEmptyLists(fs) ==> ParamsUpTo(es, n) == ParamsUpTo(fs, n)
  {
    var ps, qs := ParametersOf(es[..n]), ParametersOf(fs[..n]);
    hide Written;
    assert Alike(ps, qs);
    FoldAlike(ps, qs);
    if NoEmptyLists(es) && NoEmptyLists(fs) {
      forall i | 0 <= i < n ensures ps[i] == qs[i] {
        NothingToTrim(es[i].parameters);
        NothingToTrim(fs[i].parameters);
      }
      assert ps == qs;
    }
  }

  lemma NothingToTrim(p: Params)
    requires p.watchers != Some([]) && p.nextKeyHashes != Some([])
    ensures Written(p) == p
  {
  }

  /** What two logs resolve to, apart from the two lists. */
  ghost predicate ResolveAlike(es: seq<Entry>, fs: seq<Entry>)
    requires es != [] && fs != []
  {
    var p, q := ParamsUpTo(es, |es|), ParamsUpTo(fs, |fs|);
    && es[|es| - 1].state == fs[|fs| - 1].state
    && es[0].versionTime == fs[0].versionTime && es[|es| - 1].versionTime == fs[|fs| - 1].versionTime
    && Rest(p) == Rest(q)
    && ListsAgree(p.watchers, q.watchers) && ListsAgree(p.nextKeyHashes, q.nextKeyHashes)
    && (NoEmptyLists(es) && NoEmptyLists(fs) ==> p == q)
  }

  /** The last versionId commits to the resolution: the document, the times and all parameters, except that one log may have
      emptied its watchers or key hashes where the other has not. */
  lemma LastVersionResolves(lib: Library, es: seq<Entry>, fs: seq<Entry>, s: string, t: string)
    requires Accepted(lib, es, s) && Accepted(lib, fs, t) && TellsApart(lib)
    requires es[|es| - 1].versionId == fs[|fs| - 1].versionId
    ensures Collide(lib, es, fs) || ResolveAlike(es, fs)
  {
    hide Valid, Contains, Collide, SameHistory, TellsApart, ParamsUpTo, NoEmptyLists, Rest, ListsAgree, Written;
    LastVersionCommits(lib, es, fs, s, t);
    if SameHistory(lib, es, fs) {
      SameHistoryAgrees(lib, es, fs);
      AgreeingParams(es, fs, |es|);
    }
  }

  // ---------------------------------------------------------------- what it leaves open

  /** The logs are written alike, proofs and all. */
  ghost predicate WrittenAlike(es: seq<Entry>, fs: seq<Entry>) {
    |es| == |fs| && forall i :: 0 <= i < |es| ==> WrittenEntry(es[i]) == WrittenEntry(fs[i])
  }

  lemma EntryChecksAlike(lib: Library, e: Entry, f: Entry)
    requires OmitsEmpty(lib) && WrittenEntry(e) == WrittenEntry(f)
    ensures Body(lib, e) == Body(lib, f) && lib.scidForm(e) == lib.scidForm(f)
    ensures forall keys :: ProofOk(lib, e, keys) == ProofOk(lib, f, keys)
  {
    assert BodyOf(lib, e.versionTime, e.parameters, e.state) == BodyOf(lib, e.versionTime, Written(e.parameters), e.state);
    assert BodyOf(lib, f.versionTime, f.parameters, f.state) == BodyOf(lib, f.versionTime, Written(f.parameters), f.state);
    assert WrittenEntry(e).versionTime == e.versionTime && WrittenEntry(f).versionTime == f.versionTime;
    assert WrittenEntry(e).state == e.state && WrittenEntry(f).state == f.state;
    assert WrittenEntry(e).parameters == Written(e.parameters) && WrittenEntry(f).parameters == Written(f.parameters);
    assert WrittenEntry(e).proofs == e.proofs && WrittenEntry(f).proofs == f.proofs;
    hide FirstKey, ProofWellFormed;
    forall keys ensures ProofOk(lib, e, keys) == ProofOk(lib, f, keys) {
      forall proof, key ensures lib.verifyProof(e, proof, key) == lib.verifyProof(f, proof, key) {
        assert lib.verifyProof(e, proof, key) == lib.verifyProof(WrittenEntry(e), proof, key);
      }
    }
  }

  lemma RotationAlike(lib: Library, e: Entry, f: Entry, a: Option<seq<string>>, b: Option<seq<string>>)
    requires Trim(a) == Trim(b) && e.parameters.updateKeys == f.parameters.updateKeys
    ensures PreRotationOk(lib, e, a) == PreRotationOk(lib, f, b)
  {
    hide Multihash;
  }

  lemma FaultsAlike(lib: Library, es: seq<Entry>, fs: seq<Entry>, i: nat, s: string)
    requires OmitsEmpty(lib) && WrittenAlike(es, fs) && i < |es|
    ensures FaultAt(lib, es, i, s) == FaultAt(lib, fs, i, s)
  {
    hide OmitsEmpty, ParamsUpTo, Multihash, ProofOk, PreRotationOk, HasPrefix, TrimPrefix, VersionPrefix, Rest, Trim, Body;
    WrittenParts(es[i], fs[i]);
    EntryChecksAlike(lib, es[i], fs[i]);
    AlikeAgree(es, fs);
    AgreeingParams(es, fs, i + 1);
    SameKeys(ParamsUpTo(es, i + 1), ParamsUpTo(fs, i + 1));
    if i > 0 {
      WrittenParts(es[i - 1], fs[i - 1]);
      RotationAlike(lib, es[i], fs[i], es[i - 1].parameters.nextKeyHashes, fs[i - 1].parameters.nextKeyHashes);
    }
  }

  lemma SameKeys(p: Params, q: Params)
    requires Rest(p) == Rest(q)
    ensures p.updateKeys == q.updateKeys
  {
    assert Rest(p).updateKeys == p.updateKeys && Rest(q).updateKeys == q.updateKeys;
  }

  lemma WrittenParts(e: Entry, f: Entry)
    requires WrittenEntry(e) == WrittenEntry(f)
    ensures e == f.(parameters := e.parameters) && e.parameters.scid == f.parameters.scid
    ensures e.parameters.updateKeys == f.parameters.updateKeys
    ensures Trim(e.parameters.nextKeyHashes) == Trim(f.parameters.nextKeyHashes)
    ensures Written(e.parameters) == Written(f.parameters)
  {
    assert WrittenEntry(e).parameters == Written(e.parameters) && WrittenEntry(f).parameters == Written(f.parameters);
    assert e == WrittenEntry(e).(parameters := e.parameters) && f == WrittenEntry(f).(parameters := f.parameters);
    assert Written(e.parameters).scid == e.parameters.scid && Written(f.parameters).scid == f.parameters.scid;
    assert Written(e.parameters).updateKeys == e.parameters.updateKeys;
    assert Written(f.parameters).updateKeys == f.parameters.updateKeys;
  }

  lemma AlikeAgree(es: seq<Entry>, fs: seq<Entry>)
    requires WrittenAlike(es, fs)
    ensures EntriesAgree(es, fs)
  {
    hide Written, WrittenEntry;
    forall i | 0 <= i < |es|
      ensures es[i] == fs[i].(parameters := es[i].parameters) && Written(es[i].parameters) == Written(fs[i].parameters)
    {
      WrittenParts(es[i], fs[i]);
    }
  }

  /** No check tells logs apart that are written alike. */
  lemma AcceptedAlike(lib: Library, es: seq<Entry>, fs: seq<Entry>, s: string)
    requires OmitsEmpty(lib) && WrittenAlike(es, fs)
    ensures Accepted(lib, es, s) <==> Accepted(lib, fs, s)
  {
    hide OmitsEmpty, FaultAt, Contains;
    forall i: nat | i < |es| ensures FaultAt(lib, es, i, s) == FaultAt(lib, fs, i, s) {
      FaultsAlike(lib, es, fs, i, s);
    }
    if es != [] { WrittenParts(es[|es| - 1], fs[|fs| - 1]); }
  }

  /** The log whose last entry sets the watchers to an empty list. */
  function Emptied(es: seq<Entry>): seq<Entry>
    requires es != []
  {
    var e := es[|es| - 1];
    es[..|es| - 1] + [e.(parameters := e.parameters.(watchers := Some([])))]
  }

  /** So a log whose last entry leaves the watchers alone, and the same log with an empty list of watchers in that entry, end in
      the same versionId and are accepted alike, but the one keeps its watchers and the other has none. */
  lemma EmptyListUnnoticed(lib: Library, es: seq<Entry>, s: string)
    requires OmitsEmpty(lib) && Accepted(lib, es, s) && es[|es| - 1].parameters.watchers.None?
    ensures Accepted(lib, Emptied(es), s) && EntriesAgree(es, Emptied(es))
    ensures ParamsUpTo(es, |es|).watchers == ParamsUpTo(es, |es| - 1).watchers
    ensures ParamsUpTo(Emptied(es), |es|).watchers == Some([])
  {
    hide OmitsEmpty, Valid, Contains, ParamsUpTo;
    var fs, n := Emptied(es), |es| - 1;
    assert fs[..n] == es[..n];
    assert WrittenEntry(es[n]) == WrittenEntry(fs[n]);
    assert WrittenAlike(es, fs);
    AcceptedAlike(lib, es, fs, s);
    AlikeAgree(es, fs);
    FoldNext(es, n);
    FoldNext(fs, n);
  }
  /** Two such logs. */
  lemma TwoWatcherLists()
    ensures OmitsEmpty(ToyLibrary()) && EntriesAgree(LapsingLog(), Emptied(LapsingLog()))
    ensures Accepted(ToyLibrary(), LapsingLog(), ToyScid()) && ParamsUpTo(LapsingLog(), 3).watchers == Some(["w"])
    ensures Accepted(ToyLibrary(), Emptied(LapsingLog()), ToyScid()) && ParamsUpTo(Emptied(LapsingLog()), 3).watchers == Some([])
  {
    hide Accepted, ParamsUpTo, Multihash, SignedWith, EntriesAgree;
    PreRotationLapses();
    LapsingParams();
    EmptyListUnnoticed(ToyLibrary(), LapsingLog(), ToyScid());
  }
}
