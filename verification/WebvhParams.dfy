/** The DID parameters in force, updated in place by each log entry. */
module WebvhParams {
  import opened Options

  datatype Witness = Witness(threshold: int, ids: seq<string>)

  /** DIDParameters. The zero value of a field means "not set" (None for the fields tested against nil). */
  datatype Params = Params(
    methodName: string, scid: string, updateKeys: seq<string>, nextKeyHashes: Option<seq<string>>,
    witnessing: Option<Witness>, watchers: Option<seq<string>>, portable: bool, deactivated: bool, ttl: int)

  const UNSET := Params("", "", [], None, None, None, false, false, 0)

  function Merge(cur: Params, update: Params): Params {
    Params(
      if update.methodName != "" then update.methodName else cur.methodName,
      if update.scid != "" then update.scid else cur.scid,
      if update.updateKeys != [] then update.updateKeys else cur.updateKeys,
      if update.nextKeyHashes.Some? then update.nextKeyHashes else cur.nextKeyHashes,
      if update.witnessing.Some? then update.witnessing else cur.witnessing,
      if update.watchers.Some? then update.watchers else cur.watchers,
      cur.portable || update.portable,
      cur.deactivated || update.deactivated,
      if update.ttl > 0 then update.ttl else cur.ttl)
  }

  /** mergeParameters, on a currentParams that the log loop owns. */
  class CurrentParams {
    var methodName: string
    var scid: string
    var updateKeys: seq<string>
    var nextKeyHashes: Option<seq<string>>
    var witnessing: Option<Witness>
    var watchers: Option<seq<string>>
    var portable: bool
    var deactivated: bool
    var ttl: int

    constructor ()
      ensures Value() == UNSET
    {
      methodName, scid, updateKeys, nextKeyHashes, witnessing := "", "", [], None, None;
      watchers, portable, deactivated, ttl := None, false, false, 0;
    }

    function Value(): Params
      reads this
    {
      Params(methodName, scid, updateKeys, nextKeyHashes, witnessing, watchers, portable, deactivated, ttl)
    }

    method MergeFrom(update: Params)
      modifies this
      ensures Value() == Merge(old(Value()), update)
    {
      MergeKeys(update);
      MergeRest(update);
    }

    /** The fields that name and bind keys. */
    method MergeKeys(update: Params)
      modifies `methodName, `scid, `updateKeys, `nextKeyHashes
      ensures methodName == Merge(old(Value()), update).methodName && scid == Merge(old(Value()), update).scid
      ensures updateKeys == Merge(old(Value()), update).updateKeys
      ensures nextKeyHashes == Merge(old(Value()), update).nextKeyHashes
    {
      if update.methodName != "" {
        methodName := update.methodName;
      }
      if update.scid != "" {
        scid := update.scid;
      }
      if |update.updateKeys| > 0 {
        updateKeys := update.updateKeys;
      }
      if update.nextKeyHashes.Some? {
        nextKeyHashes := update.nextKeyHashes;
      }
    }

    method MergeRest(update: Params)
      modifies `witnessing, `watchers, `portable, `deactivated, `ttl
      ensures witnessing == Merge(old(Value()), update).witnessing && watchers == Merge(old(Value()), update).watchers
      ensures portable == Merge(old(Value()), update).portable && deactivated == Merge(old(Value()), update).deactivated
      ensures ttl == Merge(old(Value()), update).ttl
    {
      if update.witnessing.Some? {
        witnessing := update.witnessing;
      }
      if update.watchers.Some? {
        watchers := update.watchers;
      }
      if update.portable {
        portable := true;
      }
      if update.deactivated {
        deactivated := true;
      }
      if update.ttl > 0 {
        ttl := update.ttl;
      }
    }
  }

  /** The parameters in force after a sequence of entries. */
  function Fold(ps: seq<Params>): Params {
    if ps == [] then UNSET else Merge(Fold(ps[..|ps| - 1]), ps[|ps| - 1])
  }

  lemma MergeAssociative(a: Params, b: Params, c: Params)
    ensures Merge(Merge(a, b), c) == Merge(a, Merge(b, c))
  {
  }

  /** Because merging is associative, a log may be folded in two parts. */
  lemma {:induction false} FoldConcat(ps: seq<Params>, qs: seq<Params>)
    ensures Fold(ps + qs) == Merge(Fold(ps), Fold(qs))
  {
    if qs == [] {
      assert ps + qs == ps;
      FoldTtl(ps);
    } else {
      var q, rest := qs[|qs| - 1], qs[..|qs| - 1];
      assert (ps + qs)[..|ps + qs| - 1] == ps + rest;
      FoldConcat(ps, rest);
      MergeAssociative(Fold(ps), Fold(rest), q);
    }
  }

  lemma {:induction false} FoldTtl(ps: seq<Params>)
    ensures Fold(ps).ttl >= 0
  {
    if ps != [] {
      FoldTtl(ps[..|ps| - 1]);
    }
  }

  /** Entry i is the last one that sets a field. */
  ghost predicate LastSet(ps: seq<Params>, sets: Params -> bool, i: nat) {
    i < |ps| && sets(ps[i]) && forall j :: i < j < |ps| ==> !sets(ps[j])
  }

  ghost predicate NeverSet(ps: seq<Params>, sets: Params -> bool) {
    forall j :: 0 <= j < |ps| ==> !sets(ps[j])
  }

  /** A field of the result comes from the last entry that sets it, or is unset. */
  lemma {:induction false} FoldField<T>(ps: seq<Params>, sets: Params -> bool, get: Params -> T)
    requires forall a, b :: get(Merge(a, b)) == if sets(b) then get(b) else get(a)
    ensures forall i: nat :: LastSet(ps, sets, i) ==> get(Fold(ps)) == get(ps[i])
    ensures NeverSet(ps, sets) ==> get(Fold(ps)) == get(UNSET)
  {
    if ps != [] {
      var n := |ps| - 1;
      FoldField(ps[..n], sets, get);
      forall i: nat | LastSet(ps, sets, i)
        ensures get(Fold(ps)) == get(ps[i])
      {
        if i < n {
          assert LastSet(ps[..n], sets, i);
        }
      }
      if NeverSet(ps, sets) {
        assert NeverSet(ps[..n], sets);
      }
    }
  }

  /** Final parameters, field by field: the last setting wins, portable and deactivated stay once set. */
  lemma {:induction false} FoldIsLastSet(ps: seq<Params>)
    ensures forall i: nat :: LastSet(ps, (p: Params) => p.methodName != "", i) ==> Fold(ps).methodName == ps[i].methodName
    ensures forall i: nat :: LastSet(ps, (p: Params) => p.scid != "", i) ==> Fold(ps).scid == ps[i].scid
    ensures forall i: nat :: LastSet(ps, (p: Params) => p.updateKeys != [], i) ==> Fold(ps).updateKeys == ps[i].updateKeys
    ensures forall i: nat :: LastSet(ps, (p: Params) => p.nextKeyHashes.Some?, i) ==> Fold(ps).nextKeyHashes == ps[i].nextKeyHashes
    ensures forall i: nat :: LastSet(ps, (p: Params) => p.witnessing.Some?, i) ==> Fold(ps).witnessing == ps[i].witnessing
    ensures forall i: nat :: LastSet(ps, (p: Params) => p.watchers.Some?, i) ==> Fold(ps).watchers == ps[i].watchers
    ensures forall i: nat :: LastSet(ps, (p: Params) => p.ttl > 0, i) ==> Fold(ps).ttl == ps[i].ttl
    ensures Fold(ps).portable <==> exists i :: 0 <= i < |ps| && ps[i].portable
    ensures Fold(ps).deactivated <==> exists i :: 0 <= i < |ps| && ps[i].deactivated
  {
    FoldField(ps, (p: Params) => p.methodName != "", (p: Params) => p.methodName);
    FoldField(ps, (p: Params) => p.scid != "", (p: Params) => p.scid);
    FoldField(ps, (p: Params) => p.updateKeys != [], (p: Params) => p.updateKeys);
    FoldField(ps, (p: Params) => p.nextKeyHashes.Some?, (p: Params) => p.nextKeyHashes);
    FoldField(ps, (p: Params) => p.witnessing.Some?, (p: Params) => p.witnessing);
    FoldField(ps, (p: Params) => p.watchers.Some?, (p: Params) => p.watchers);
    FoldField(ps, (p: Params) => p.ttl > 0, (p: Params) => p.ttl);
    FoldSticky(ps);
  }

  lemma {:induction false} FoldSticky(ps: seq<Params>)
    ensures Fold(ps).portable <==> exists i :: 0 <= i < |ps| && ps[i].portable
    ensures Fold(ps).deactivated <==> exists i :: 0 <= i < |ps| && ps[i].deactivated
  {
    if ps != [] {
      FoldSticky(ps[..|ps| - 1]);
    }
  }
}
