# Go-Trust decision logic in Dafny

Go-Trust answers one question: may this key act for this subject? This project models the parts of the server where the
answer is computed by a real algorithm, in Dafny 4.11, and proves what those algorithms promise. `dafny verify
dfyconfig.toml` checks all of it.

| part | modules | what is proved |
|---|---|---|
| eMRTD certificate paths | `EmrtdChain`, `EmrtdSearch`, `EmrtdOrder`, `EmrtdCost`, `EmrtdWalk`, `EmrtdRequest`, `EmrtdMeaning`, `EmrtdEvaluate` | the budgeted depth-first search is stopped exactly when its budget does not cover the work, and otherwise allows exactly when an acceptable chain exists |
| did:webvh logs | `WebvhParams`, `WebvhLog`, `WebvhMeaning`, `WebvhHistory`, `WebvhCommit`, `Decimals` | the last versionId commits to the whole history, and to the resolution up to emptied lists; keys, times and parameters of every accepted log |
| Base58 and secp256k1 | `Powers`, `Numerals`, `Base58`, `NumberTheory`, `Secp256k1`, `CubeRoots`, `KeyMeaning` | the buffer estimate suffices, both codecs undo each other, point decompression inverts compression |
| ETSI trusted lists | `EtsiReach`, `EtsiExact`, `EtsiExpiry`, `EtsiMeaning` | pruning and walking gives exactly the reachable current lists iff their Sources differ; lazy expiry is recomputation |
| LoTE lists | `LoteIndex`, `LoteMeaning`, `LoteEvaluate`, `LoteDecision`, `LotlResolve`, `LotlMeaning`, `LotlOrder`, `LoteExpiry`, `LoteForce` | the index decides as a linear scan does; pointers are followed to exactly what is within the depth limit iff the walk loses nothing where the limit cuts it off; lazy expiry is eager filtering |
| strategies and composites | `CircuitBreakers`, `Strategies`, `Sequential`, `StrategyMeaning`, `VerifierIds`, `MergedIds`, `Composites` | every interleaving ends with the same decision; nested composites compute their boolean denotation |
| DIDs | `DidSegments`, `DidSyntax`, `DidParse`, `DidMeaning` | printing undoes parsing; placeholder splitting is direct splitting |
| shared | `Options`, `Sets`, `Strings` | |

Each main operation is described twice: by functions that follow its code, and, in `EmrtdMeaning`, `WebvhMeaning`,
`EtsiMeaning`, `LoteDecision`, `LotlMeaning`, `LoteForce`, `StrategyMeaning`, `MergedIds`, `KeyMeaning` and `DidMeaning`, from the
fields of its inputs alone. Lemmas there connect the two, as equivalences wherever the code decides something.

Code that changes state step by step is a method or a class with loops; each is proved equal to a function of its inputs or
of its old state, and the properties are proved about that function. Signatures, hashes, certificate parsing and fetching
are function values, maps and predicates that are passed in, so every result holds whatever they do. Where a result needs a
hypothesis about them it says so: `LastVersionCommits` ends in "the same history, or the two logs themselves hold, at one
place, two different entries with the same digest", and the results on square roots take the primality of the modulus as a
hypothesis.

## Where the code and its documentation differ

The model follows the code. The differences that matter to a result are each stated by a lemma:

- `CircuitHalfOpen` is documented as the state after the reset timeout, in which limited requests are let through. No code
  assigns it: after the timeout the breaker stays open and admits every caller until the next failure
  (`CircuitBreakers.StateOfHistory`, `CircuitBreakers.RefusedExactlyWhen`).
- The sequential strategy does not recover a panic of a registry, the parallel ones do
  (`Sequential.AgreesUnlessPanicFirst`).
- Pre-rotation is checked against the nextKeyHashes that the previous entry itself carries, not against those in force: an
  entry without any ends the commitment, although the merged parameters still hold the old hashes
  (`WebvhHistory.PreRotationLapses`; `WebvhHistory.RotationCheckMeaning` for exactly when the two checks agree).
- The comment on portable says that only the first entry may set it; any entry does
  (`WebvhParams.FoldIsLastSet`).
- W3C DID Core 1.0, section 3.1, allows percent-encodings anywhere in a method-specific identifier; the regular expression
  allows one run of them, so `a%3Ab%3Ac` is refused (`DidSyntax.TwoRunsRefused`). Which identifiers of the grammar are
  accepted is stated exactly (`DidSyntax.AcceptedIdentifiers`). What is accepted beyond the grammar ends in a colon.
- An action that names a loaded LoTE type limits the request to that type. When the last list of that type expires, the
  action no longer names a loaded type and, unless the type has the ETSI prefix or the role is configured, stops being a
  limit: a denial can turn into an allow (`LoteEvaluate.DroppingTheLastListWidens`; `LoteExpiry.ExpiryOnlyDenies` for when
  it cannot).
- The reachability walk over trusted lists tells lists apart by their Source text: it returns each reachable list once iff no
  two reachable lists share one (`EtsiExact.ReachableIsExact`), and loses a list otherwise
  (`EtsiReach.SharedSourceLosesAList`).
- MaxDereferenceDepth is documented as a limit on nesting. With the visited set it can lose a list of lists to which a chain
  within the limit leads (`LotlOrder.DepthLimitLoses`). A walk finds exactly what is within the limit iff all that it was cut
  off from, loads and is within the limit is visited from elsewhere (`LotlResolve.AllFollowed`). That depends on the order of
  the pointers. A condition that suffices for every order is that nothing behind a chain which uses up the limit is also
  within it (`LotlResolve.SufficientDepth`); it is not necessary (`LotlOrder.CutWithoutLoss`).
- An empty list of watchers or key hashes in a did:webvh entry replaces the list in force when the entry is merged, but is
  left out of what is hashed and signed. So the last versionId commits to the resolution up to such lists
  (`WebvhCommit.LastVersionResolves`), and not beyond (`WebvhCommit.EmptyListUnnoticed`).

## Model

| member | source | states |
|---|---|---|
| EmrtdChain.CountdownMeaning | pkg/registry/emrtd/chain.go:340-372 | the top-down max_path_length countdown of RFC 5280, section 6.1.4 (l) and (m), succeeds from a certificate on iff every issuer below it has at most its limit of non-self-issued certificates beneath it and the count so far fits |
| EmrtdChain.PathLenMeaning | pkg/registry/emrtd/chain.go:340-372 | the countdown that starts with the anchor's own constraint is equivalent to a limit per issuer counted from the leaf; an override replaces every issuer's limit |
| EmrtdChain.CheckPathLen | pkg/registry/emrtd/chain.go:349-372 | the bottom-up loop denies iff the path length is enforced and the RFC 5280 countdown fails |
| EmrtdChain.NewCrlData | pkg/registry/emrtd/registry.go:575-581 | the serial index holds the decimal text of exactly the listed serial numbers |
| EmrtdChain.CrlData.IsRevoked | pkg/registry/emrtd/registry.go:583-586 | a lookup in the index is membership in the list, for every serial number, negative ones too |
| EmrtdChain.TimeVerdictMeaning | pkg/registry/emrtd/chain.go:200-214 | no time denial iff every certificate of the path is valid at the signing time |
| EmrtdChain.VerdictMeaning | pkg/registry/emrtd/chain.go:196-257 | the first failing check is none iff the path satisfies all conditions, stated without order, memo or index |
| EmrtdSearch.ChainsSound | pkg/registry/emrtd/chain.go:110-181 | everything that the walk's turns produce is a chain of at most 5 distinct certificates through signed, CA-capable, non-anchor links to an anchor |
| EmrtdSearch.ChainsComplete | pkg/registry/emrtd/chain.go:110-181 | every such chain is produced |
| EmrtdSearch.ChainsAreExactly | pkg/registry/emrtd/chain.go:110-181 | both directions, from the document signer |
| EmrtdSearch.NameHitMeaning | pkg/registry/emrtd/chain.go:110-181 | the nameMatched flag of a full walk means that some link path ends in a certificate which names an anchor, signed by it or not, or a link that did not sign it or may not act as a CA |
| EmrtdCost.WorkedThen | pkg/registry/emrtd/chain.go:38-51 | spending composes: after a part that ran to its end, what is left covers a second part iff the start covered both |
| EmrtdCost.WalkHits | pkg/registry/emrtd/chain.go:110-181 | the account of a walk's checks ends in a hit iff some chain from the path suits what is searched for, the claimed state's rules or any chain |
| EmrtdCost.WalkWorkAtMost | pkg/registry/emrtd/chain.go:127-180 | a walk makes at most Most(a, e, k) checks with a anchors, e extras and a path of length k, and any larger budget covers it |
| EmrtdCost.MostFromSigner | pkg/registry/emrtd/chain.go:127-180 | from the document signer that is a + e (1 + a + e (1 + a + e (1 + a))) |
| EmrtdWalk.Search.Stopped | pkg/registry/emrtd/chain.go:38-51 | the latches are permanent, exhaustion means that no step is left, cancellation that the context was done when asked |
| EmrtdWalk.CrlVerdicts.SignatureOk | pkg/registry/emrtd/chain.go:416-424 | the memoised verdict is the verdict of a direct signature check |
| EmrtdWalk.CrlVerdicts.CrlAuthentic | pkg/registry/emrtd/chain.go:401-414 | a revocation list counts iff the path issuer or an anchor of its issuer's name signed it |
| EmrtdWalk.CrlVerdicts.AnyRevoked | pkg/registry/emrtd/chain.go:235-255 | the loops find a revocation iff an authentic list names some certificate below the anchor |
| EmrtdWalk.CrlVerdicts.CheckPath | pkg/registry/emrtd/chain.go:196-257 | with the memo and the index, the result is that of the conditions checked directly |
| EmrtdWalk.PathBuilder.Walk | pkg/registry/emrtd/chain.go:127-180 | the recursive walk tries a prefix of the sequence of all chains, and all of it unless it found one or was stopped; unless it is stopped it makes exactly the checks of WalkWork, up to the first chain that suits or to the end; it is not stopped when the budget covers them and the context is not done, and it is when the budget does not |
| EmrtdWalk.BuildPaths | pkg/registry/emrtd/chain.go:110-181 | the chains tried are a prefix of all chains; neither found nor stopped means that all were tried and nameMatched is exact; the same account of the budget |
| EmrtdRequest.PathLenFromContext | pkg/registry/emrtd/chain.go:285-320 | an override is non-negative and implies enforcement, and the mode "enforce" enforces |
| EmrtdMeaning.PathLenRequested | pkg/registry/emrtd/chain.go:285-320 | the context is read iff the mode is absent, null or one of its three values and the override is absent, null or a natural number, as an integer or a float; path lengths are enforced iff the mode says so or there is an override, which is then that number |
| EmrtdMeaning.RequestChecked | pkg/registry/emrtd/registry.go:280-333 | which requests reach the search: right action and types, a known state, equal subject and resource, a signing time, readable certificates, anchors for the state, every country in the document signer's subject agreeing, a readable context; and which of the three codes every other request is denied with |
| EmrtdMeaning.ChainConnects | pkg/registry/emrtd/chain.go:53-181 | a chain is two to five different certificates from the document signer through supplied ones, which are CA certificates with keyCertSign and no anchors, to an anchor of the state, each named as issuer of the one before and verifying its signature under an algorithm that is not refused |
| EmrtdMeaning.NamedMeaning | pkg/registry/emrtd/chain.go:127-180 | a name match is an anchor with the name of the path's issuer, or a supplied certificate with it that is no anchor and did not sign or may not issue |
| EmrtdMeaning.LengthsMeaning | pkg/registry/emrtd/chain.go:322-372 | the verdict on path lengths is that every issuer has at most as many intermediates below it that are not self-issued as the override says, or as its own constraint does |
| EmrtdMeaning.UnrevokedMeaning | pkg/registry/emrtd/chain.go:235-255 | it is revoked iff a list loaded for the claimed state, in the name of a path certificate's issuer, not weakly signed, made by the issuer on the path or by an anchor of the state with the list's name, has its serial |
| EmrtdMeaning.TimeCodes | pkg/registry/emrtd/chain.go:200-214 | NotYetValid and Expired say on which side of its validity the first certificate that is not valid at the signing time stands |
| EmrtdMeaning.VerdictCodes | pkg/registry/emrtd/chain.go:196-257 | which code the verdict on a chain has, for each code exactly when |
| EmrtdMeaning.TrustedMeaning | pkg/registry/emrtd/registry.go:335-344 | a request is to be trusted iff a chain connects it to the claimed state that keeps the lengths asked for, is valid at the request's signing time, starts with a certificate that may sign documents and is not revoked by the state's lists |
| EmrtdEvaluate.ChainsToMeaning | pkg/registry/emrtd/registry.go:358-376 | there is no chain to a state's anchors iff its sequence of chains is empty |
| EmrtdEvaluate.CompleteMeansUntrusted | pkg/registry/emrtd/registry.go:335-358 | when all chains of the claimed state were tried and refused, no acceptable chain exists |
| EmrtdEvaluate.AcceptedMeansTrusted | pkg/registry/emrtd/registry.go:335-344 | an accepted chain is an acceptable chain from the presented certificate |
| EmrtdEvaluate.MemoBound | pkg/registry/emrtd/chain.go:416-424 | distinct memo keys are at most lists times issuers, which bounds revocation-list signature checks |
| EmrtdEvaluate.Interpret | pkg/registry/emrtd/registry.go:335-358 | what the callback's flags say about trust, and that an exhaustive search's denial code is that of its first chain |
| EmrtdEvaluate.ClaimedWorkHits | pkg/registry/emrtd/registry.go:335-358 | the claimed state's part of the work ends at a chain iff an acceptable chain exists |
| EmrtdEvaluate.ProbeWorkHits | pkg/registry/emrtd/registry.go:362-374 | a probe's part does iff that other state's anchors complete a chain |
| EmrtdEvaluate.ProbeOthers | pkg/registry/emrtd/registry.go:362-374 | the loop over the other states hits iff one of them would complete a chain, and accounts for the shared budget |
| EmrtdEvaluate.CountBounds | pkg/registry/emrtd/chain.go:127-180 | the numbers of a state's anchors and of the supplied certificates bound the checks of its walk |
| EmrtdEvaluate.FewCertificatesFit | pkg/registry/emrtd/chain.go:20-36 | a request whose bounds, counted from certificates or otherwise, sum to less than 2000 over the states is searched through within the budget |
| EmrtdEvaluate.FirstChainDenied | pkg/registry/emrtd/registry.go:335-358 | where a chain connects to the claimed state, the code of an exhaustive denial is the verdict on the first one |
| EmrtdOrder.FirstChain | pkg/registry/emrtd/chain.go:110-181 | the first one is that before which no other stands: where they first differ its certificate comes earlier, anchors before supplied certificates |
| EmrtdEvaluate.NoChainDenied | pkg/registry/emrtd/registry.go:360-381 | where none does, the code is CountryMismatch iff one connects to another state, else ChainInvalid iff there is a name match, else NoAnchor |
| EmrtdEvaluate.Evaluate | pkg/registry/emrtd/registry.go:280-390 | what it allows is a chain sound in the terms of EmrtdMeaning; it is stopped if 2000 checks do not cover the work, which runs to the first acceptable chain, or through all chains and then the probes, and never if they do and the context is not done; if it is not stopped it allows iff a sound chain exists and has made exactly the checks of that work; a denial without being stopped has the right code |
| Decimals.DecimalInjective | pkg/registry/emrtd/registry.go:575-586 | different numbers have different decimal texts |
| Decimals.SignedInjective | pkg/registry/emrtd/registry.go:575-586 | also when negative |
| Decimals.DashedPrefixDeterminesNumber | pkg/registry/didwebvh/didwebvh_registry.go:521-528 | two "n-" prefixes of one versionId have the same n |
| Decimals.NumeralIsDecimal | pkg/registry/didwebvh/didwebvh_registry.go:520-523 | the numeral printed is the one without leading zeros that denotes the number |
| Numerals.DigitsUnique | pkg/registry/didwebvh/didwebvh_registry.go:753-795 | a number has one shortest numeral in a base |
| Numerals.ConvertRoundTrip | pkg/registry/didwebvh/didwebvh_registry.go:753-795 | changing base and back, with leading zeros kept apart, is the identity on every digit string |
| Base58.EstimateSuffices | pkg/registry/didwebvh/didwebvh_registry.go:766-768 | for every length n a value below 256 to the n has at most n*138/100+1 base-58 digits |
| Base58.PushByte | pkg/registry/didwebvh/didwebvh_registry.go:771-783 | the inner loop stays inside the buffer and turns the numeral of v into that of 256 v + b |
| Base58.Encode | pkg/registry/didwebvh/didwebvh_registry.go:753-795 | the buffer algorithm yields one '1' for each leading zero byte and then the base-58 numeral |
| Base58.PushDigit | pkg/registry/did/resolver.go:732-743 | the rewrite of the byte slice turns the value v into 58 v + digit and keeps the numeral shortest |
| Base58.Decode | pkg/registry/did/resolver.go:716-755 | decodes iff every character is in the alphabet, to the bytes of the numeral behind one zero byte for each leading '1' |
| Base58.AlphabetIsInjective | pkg/registry/did/resolver.go:713-721 | no character occurs twice in the alphabet |
| Base58.DecodeEncode | pkg/registry/did/resolver.go:716-755 | decoding an encoded byte string gives it back, for every byte string |
| Base58.EncodeDecode | pkg/registry/didwebvh/didwebvh_registry.go:753-795 | encoding a decoded text gives it back, for every text over the alphabet |
| NumberTheory.Euclid | pkg/registry/did/resolver.go:763-785 | a prime that divides a product divides a factor |
| NumberTheory.Fermat | pkg/registry/did/resolver.go:763-785 | Fermat's little theorem, proved from the permutation of the residues |
| Secp256k1.RefusesNonResidues | pkg/registry/did/resolver.go:775-784 | an x is refused iff x³ + 7 has no square root modulo p, for every prime p that is 3 modulo 4 |
| Secp256k1.AnswerOnCurve | pkg/registry/did/resolver.go:775-784 | an answer is a point of the curve with the parity of the prefix |
| Secp256k1.AnswerIsReduced | pkg/registry/did/resolver.go:781-784 | for any prime that is 3 modulo 4, the y is below p iff it is not the case that x³ + 7 is 0 and the prefix is odd; for secp256k1 that case is excluded by CubeRoots.RhsIsNotZero |
| Secp256k1.AnswerIsUnique | pkg/registry/did/resolver.go:775-784 | a reduced point with that x and parity is the answer |
| Secp256k1.DecompressCompress | pkg/registry/did/resolver.go:763-785 | decompressing the compressed form (SEC 1, section 2.3.3) of a point gives its two coordinates in 32 bytes each |
| Secp256k1.CompressDecompress | pkg/registry/did/resolver.go:763-785 | compressing what was decompressed gives the input, for every accepted input |
| Secp256k1.AcceptsExactlyPoints | pkg/registry/did/resolver.go:763-785 | accepted are exactly 33 bytes with prefix 2 or 3 and a reduced x that lies on the curve |
| CubeRoots.PowerOfMinusSeven | pkg/registry/did/resolver.go:758-761 | the residue of -7 to the power (p-1)/3 modulo the field prime, by repeated squaring |
| CubeRoots.RhsIsNotZero | pkg/registry/did/resolver.go:775-776 | x³ + 7 is never 0 modulo the field prime, for every x |
| CubeRoots.DecompressedIsPoint | pkg/registry/did/resolver.go:763-785 | whatever is decompressed is a point: x and y are reduced, y is not 0, the equation holds and y has the parity of the prefix |
| KeyMeaning.DecompressMeaning | pkg/registry/did/resolver.go:763-785 | the four refusals, each exactly when: wrong length, a prefix other than 2 and 3, an x that is no field element, an x to which y^2 = x^3 + 7 has no solution; otherwise the answer is x and the y with that equation and the parity of the prefix |
| KeyMeaning.FieldPrime | pkg/registry/did/resolver.go:758 | the field prime is 2^256 - 2^32 - 977 |
| WebvhParams.CurrentParams.MergeFrom | pkg/registry/didwebvh/didwebvh_registry.go:609-638 | the in-place merge is the merge of the values |
| WebvhParams.MergeAssociative | pkg/registry/didwebvh/didwebvh_registry.go:609-638 | merging is associative |
| WebvhParams.FoldConcat | pkg/registry/didwebvh/didwebvh_registry.go:609-638 | the parameters after two stretches of a log are the merge of those of each |
| WebvhParams.FoldIsLastSet | pkg/registry/didwebvh/didwebvh_registry.go:609-638 | every field has the value of the last entry that sets it; portable and deactivated are sticky |
| WebvhLog.FindPublicKey | pkg/registry/didwebvh/didwebvh_registry.go:861-879 | the first update key that matches the verification method and decodes |
| WebvhLog.VerifyProof | pkg/registry/didwebvh/didwebvh_registry.go:798-858 | accepts iff the first proof is well formed and its signature verifies under a key found among those given |
| WebvhLog.VerifyPreRotation | pkg/registry/didwebvh/didwebvh_registry.go:925-955 | accepts iff nothing was declared or every new update key hashes to a declared value and there is one |
| WebvhLog.CheckEntry | pkg/registry/didwebvh/didwebvh_registry.go:516-573 | the fault reported for an entry is the first in the code's order, with the parameters already merged |
| WebvhLog.ProcessDidLog | pkg/registry/didwebvh/didwebvh_registry.go:496-606 | resolves iff the log reads, parses and is accepted; the result is the last document, the times and the folded parameters; a failure is that of the first line that cannot be read or whose entry has a fault, or else what is wrong with the log as a whole |
| WebvhMeaning.MultihashDecodes | pkg/registry/didwebvh/didwebvh_registry.go:738-751 | a multihash is the base58 text of the bytes 18, 32 and the digest |
| WebvhMeaning.SignedMeaning | pkg/registry/didwebvh/didwebvh_registry.go:798-881 | the first proof is a Data Integrity proof with eddsa-jcs-2022 and assertionMethod, and verifies under the first update key that its verification method mentions, with or without did:key: in front |
| WebvhMeaning.RotatesMeaning | pkg/registry/didwebvh/didwebvh_registry.go:925-955 | when the entry before declares key hashes, this one sets keys and each has its multihash among them |
| WebvhMeaning.KeysMeaning | pkg/registry/didwebvh/didwebvh_registry.go:609-617 | the update keys in force are those of the last entry that sets any |
| WebvhMeaning.HashMeaning | pkg/registry/didwebvh/didwebvh_registry.go:520-554 | versionId is the entry's number, a dash and the multihash of the entry with the predecessor's versionId, or the SCID, in place of its own |
| WebvhMeaning.FaultIsFirstFailed | pkg/registry/didwebvh/didwebvh_registry.go:516-573 | an entry has the code of the first of eight checks that it fails, in their order, and none iff it passes all; a time passes iff it can be read, is at most a minute ahead of the clock and follows the time before, if that can be read |
| WebvhMeaning.AcceptedMeaning | pkg/registry/didwebvh/didwebvh_registry.go:580-592 | a log is accepted iff it has an entry, every entry passes the eight checks and the last document's identifier contains the SCID |
| WebvhMeaning.EntriesInOrder | pkg/registry/didwebvh/didwebvh_registry.go:506-514 | the entries are those of the lines that hold one, in order |
| WebvhHistory.HashLinks | pkg/registry/didwebvh/didwebvh_registry.go:697-734 | each versionId of an accepted log is its number, a dash and the hash over its predecessor and itself |
| WebvhHistory.LastVersionCommits | pkg/registry/didwebvh/didwebvh_registry.go:516-554 | two accepted logs with equal last versionIds have the same length, versionIds and encoded bodies at every entry, or two entries at the same place of the two logs differ and have the same digest |
| WebvhHistory.CollisionIsOfDigest | pkg/registry/didwebvh/didwebvh_registry.go:697-734 | where canonicalisation tells entries apart, different histories exhibit two different hash inputs, taken from the logs, with the same SHA-256 |
| WebvhHistory.TimesIncrease | pkg/registry/didwebvh/didwebvh_registry.go:958-978 | versionTimes strictly increase over any two entries of an accepted log |
| WebvhHistory.EveryEntrySigned | pkg/registry/didwebvh/didwebvh_registry.go:518-559 | each entry is signed by a key among the updateKeys in force after its own merge |
| WebvhHistory.PreRotationBinds | pkg/registry/didwebvh/didwebvh_registry.go:925-955 | after an entry that declares key hashes, the next entry's keys are in force and every key that signs it was announced |
| WebvhHistory.RotationCheckMeaning | pkg/registry/didwebvh/didwebvh_registry.go:561-566 | checking against the previous entry's own hashes passes the same entries as checking against the hashes in force iff the previous entry sets hashes or none that demand anything are in force; otherwise it passes every entry |
| WebvhHistory.KeptCommitmentBinds | pkg/registry/didwebvh/didwebvh_registry.go:561-566 | while that condition holds, every key that signs an entry of an accepted log was announced by the hashes in force |
| WebvhHistory.ScidAnchorsChain | pkg/registry/didwebvh/didwebvh_registry.go:646-690 | the first entry's SCID is the expected one, is derived from that entry, and starts the hash chain |
| WebvhHistory.PreRotationLapses | pkg/registry/didwebvh/didwebvh_registry.go:561-566 | an accepted log of three entries whose last is signed by a key that the hashes still in force do not announce |
| WebvhCommit.FoldAlike | pkg/registry/didwebvh/didwebvh_registry.go:609-642 | two sequences of parameters that are written alike, empty lists left out, merge to the same parameters but for watchers and key hashes, which are the same unless one side has none |
| WebvhCommit.LastVersionResolves | pkg/registry/didwebvh/didwebvh_registry.go:594-607 | two accepted logs with equal last versionIds resolve to the same document, times and parameters, but for watchers and key hashes that one of them has emptied, or two of their entries collide; to exactly the same when no entry sets an empty list |
| WebvhCommit.AcceptedAlike | pkg/registry/didwebvh/didwebvh_registry.go:697-734 | no check tells logs apart that differ in nothing that is written |
| WebvhCommit.EmptyListUnnoticed | pkg/registry/didwebvh/didwebvh_registry.go:625-627 | an accepted log whose last entry leaves the watchers alone, and the same log with an empty list there, are both accepted with the same versionIds; the one keeps its watchers and the other has none |
| WebvhCommit.TwoWatcherLists | pkg/registry/didwebvh/didwebvh_registry.go:625-627 | two such logs |
| EtsiReach.PruneVisiting | pkg/registry/etsi/registry.go:577-591 | the visiting-set recursion terminates on cyclic graphs and gives the pruned copy |
| EtsiReach.WalkCopies | pkg/registry/etsi/registry.go:597-617 | the closure with its seen-set gives the pre-order walk of first occurrences |
| EtsiReach.Reachable | pkg/registry/etsi/registry.go:597-617 | both together |
| EtsiExact.PruneRestricted | pkg/registry/etsi/registry.go:577-591 | pruning looks only at lists that are joined to the root |
| EtsiExact.WalkReturnsJoined | pkg/registry/etsi/registry.go:597-617 | the output is empty iff the root is not current; else it starts with the root, and consists of copies of joined lists with different Sources |
| EtsiExact.WalkReturnsAll | pkg/registry/etsi/registry.go:597-617 | every joined list is returned when the joined lists carry different Sources, whatever the rest of the graph carries |
| EtsiExact.ReachableIsExact | pkg/registry/etsi/registry.go:573-617 | the output is one copy of each list joined to the root by a path of current lists iff no two of these carry the same Source |
| EtsiMeaning.TrustedMeaning | pkg/registry/etsi/registry.go:556-617 | a list is joined to the root iff a route leads to it on which every list refers to the next and has no deadline, one that has not passed, or staleness allowed |
| EtsiReach.SharedSourceLosesAList | pkg/registry/etsi/registry.go:597-617 | without distinct Sources a joined list can be missing |
| EtsiExpiry.PruneTwice | pkg/registry/etsi/registry.go:573-591 | pruning a pruned copy at a later time is pruning the original graph at that time |
| EtsiExpiry.NotDueUnchanged | pkg/registry/etsi/registry.go:640-655 | while the earliest deadline in a pruned copy has not passed, pruning gives the same copy |
| EtsiExpiry.EarliestDeadline | pkg/registry/etsi/registry.go:620-635 | the walk computes the earliest dated deadline in the copies |
| EtsiExpiry.RootsSuffice | pkg/registry/etsi/registry.go:656-686 | recomputing from the pruned roots equals recomputing from the originally loaded graphs |
| EtsiExpiry.NotDueSame | pkg/registry/etsi/registry.go:640-655 | the early exit loses nothing |
| EtsiExpiry.StaleSame | pkg/registry/etsi/registry.go:640-643 | with AllowStale time does not matter |
| EtsiExpiry.TslRegistry.Load | pkg/registry/etsi/registry.go:194-331 | the swap happens iff every source's root is current and some certificate is left; otherwise nothing changes |
| EtsiExpiry.TslRegistry.ExpireStale | pkg/registry/etsi/registry.go:640-686 | after any nondecreasing clock readings the lists, pool and count equal a recomputation from what was loaded, at the current time |
| EtsiExpiry.TslRegistry.Rebuild | pkg/registry/etsi/registry.go:656-686 | the new fields are those of the roots pruned once more |
| EtsiMeaning.CertsMeaning | pkg/registry/etsi/registry.go:665-676 | the certificates taken from live lists are exactly those that some live list has |
| EtsiMeaning.StateMeaning | pkg/registry/etsi/registry.go:640-686 | at any time the pool is the bundle and the certificates of live lists: all of them belong to trusted lists, and where these have different Sources every certificate of a trusted list is in; the count is the bundle's plus the sum over the live lists |
| EtsiMeaning.LoadMeaning | pkg/registry/etsi/registry.go:308-313 | a load needs every configured list current and at least one certificate |
| EtsiMeaning.AllEarliest | pkg/registry/etsi/registry.go:619-637 | the next deadline is the least among the live lists and what they refer to, and absent iff none is dated |
| LoteIndex.EntityIndex.AddEntity | pkg/registry/lote/registry.go:923-1014 | one entity extends the variant of its type or opens one, pools services and adds the hashes of the services that count |
| LoteIndex.EntityIndex.AddList | pkg/registry/lote/registry.go:919-1014 | one list adds its type and its entities in order |
| LoteIndex.BuildIndex | pkg/registry/lote/registry.go:908-1018 | the index built in place is the one described by the lists |
| LoteMeaning.AdmissibleHashesMeaning | pkg/registry/lote/registry.go:967-982 | a hash is indexed iff a service that counts for the list type has it |
| LoteMeaning.IndexAgreesWithLists | pkg/registry/lote/registry.go:908-1018 | for every identifier and type there is one variant iff some list has it, and it pools the services and hashes of all entities that carry the identifier |
| LoteMeaning.ListsMeaning | pkg/registry/lote/registry.go:908-1018 | the pooled view contains exactly what a scan of lists and entities finds |
| LoteMeaning.SchemeTypesMeaning | pkg/registry/lote/registry.go:919-922 | the types known to the index are the types of the lists |
| LoteMeaning.ByKeyHashMeaning | pkg/registry/lote/registry.go:979-987 | the reverse map sends a hash to exactly the identifiers some list gives it to |
| LoteEvaluate.NotifiedIsNotWithdrawn | pkg/registry/lote/registry.go:174-184 | the notified status is not a withdrawn one |
| LoteEvaluate.HasNotifiedService | pkg/registry/lote/registry.go:174-184 | found iff some service has the notified status |
| LoteEvaluate.EvaluateEntity | pkg/registry/lote/registry.go:395-464 | grants iff a public-attestation variant has a notified service and the key, if one is bound, is among the variant's hashes |
| LoteEvaluate.Decide | pkg/registry/lote/registry.go:303-392 | grants iff some variant of a permitted type grants |
| LoteEvaluate.PoolingIsScan | pkg/registry/lote/registry.go:923-950 | pooling entities of one type neither adds nor loses a grant against looking at each entity alone |
| LoteEvaluate.IndexDecidesAsScan | pkg/registry/lote/registry.go:303-464 | merged variants and index decide as a linear scan for a list of a permitted type, an entity with the identifier, and a service that counts (Annex H of ETSI TS 119 602 for public attestations) with the key |
| LoteEvaluate.Evaluate | pkg/registry/lote/registry.go:276-464 | on an index built from given lists the decision is that of the scan of those lists |
| LoteDecision.WithdrawnMeaning | pkg/registry/lote/registry.go:1472-1474 | a status is a withdrawn one iff it spells "withdrawn" somewhere, in any mixture of capitals |
| LoteDecision.ListGrantsMeaning | pkg/registry/lote/registry.go:395-463 | a list grants iff an entity with the subject's identifier has a service with the key whose status counts, or, without a key, is in no public-attestation list or has a notified service |
| LoteDecision.DecisionMeaning | pkg/registry/lote/registry.go:303-392 | granted iff a loaded list grants whose type is permitted: one of those configured for the role, else the type that the role names, else any |
| LoteDecision.ConfiguredRole | pkg/registry/lote/registry.go:280-281 | under a configured role, iff a list of one of the configured types grants |
| LoteDecision.TypeRole | pkg/registry/lote/registry.go:283-285 | under another role that is the type of a loaded list or has the prefix of list types, iff a list of that type grants |
| LoteDecision.UnlimitedRole | pkg/registry/lote/registry.go:286 | under any other role or none, iff any list grants |
| LoteEvaluate.DroppingListsOnlyDenies | pkg/registry/lote/registry.go:276-287 | dropping lists turns no denial into a grant unless it drops the last list of a type that only the loaded lists made a limit |
| LoteEvaluate.DroppingTheLastListWidens | pkg/registry/lote/registry.go:276-287 | for every role outside the condition, dropping a list can turn a denial into a grant |
| LotlResolve.DueIsEarliest | pkg/registry/lote/registry.go:1276-1286 | the deadline carried along a chain is the earliest dated NextUpdate on it, and absent iff none is dated |
| LotlResolve.LoadTarget | pkg/registry/lote/registry.go:1411-1419 | a pointer's lists are taken iff the target loads and all of them are current, each with the inherited deadline |
| LotlResolve.Resolution.ResolveLotl | pkg/registry/lote/registry.go:1212-1265 | the visited-set recursion terminates, marks only what loads, and every list found, pointer skipped and LoTL followed is accounted for |
| LotlResolve.Resolution.FollowPointers | pkg/registry/lote/registry.go:1248-1265 | the loop accounts for every pointer, and leaves no loadable LoTL unfollowed that the limit did not turn away |
| LotlResolve.Resolution.ResolvePointer | pkg/registry/lote/registry.go:1396-1433 | one pointer yields its lists, its nested LoTL, or one skip |
| LotlResolve.FollowedCoversWithin | pkg/registry/lote/registry.go:1212-1265 | a set of LoTLs that holds the sources, and whatever its members point to unless the limit turned it away, holds all within the limit if nothing of that was lost where the limit turned the walk away |
| LotlResolve.AllFollowed | pkg/registry/lote/registry.go:1212-1265 | the LoTLs followed are exactly those to which a chain within the limit leads, each once, iff every loadable LoTL within the limit that was turned away somewhere was visited from elsewhere |
| LotlResolve.SufficientDepth | pkg/registry/lote/registry.go:1213-1220 | in whatever order pointers are met, that is so when no loadable LoTL behind a chain that uses up the limit is also within the limit |
| LotlResolve.NoLongChainSuffices | pkg/registry/lote/registry.go:1213-1220 | in particular when no chain without repetitions is longer than the limit, or there is no limit |
| LotlResolve.FollowedIsReachable | pkg/registry/lote/registry.go:1351-1362 | and then the LoTLs followed are exactly the reachable ones |
| LotlResolve.ManyLevelsSuffice | pkg/registry/lote/registry.go:1213-1220 | a limit of at least the number of LoTLs suffices |
| LotlOrder.DepthLimitLoses | pkg/registry/lote/registry.go:1213-1227 | with limit 3 and S pointing to A and B, A to B, B to C, the LoTL C is never visited although S, B, C is a chain of length 3 |
| LotlOrder.CutWithoutLoss | pkg/registry/lote/registry.go:1213-1227 | with limit 1 and sources S and T, S pointing to T, the limit turns T away within its reach and nothing is lost: the condition that suffices for every order is not necessary |
| LotlResolve.Discover | pkg/registry/lote/registry.go:866-875 | fails iff a configured LoTL does not load; else every configured LoTL is followed, each list found was loaded through a chain of LoTLs within the limit whose earliest dated NextUpdate it inherits, the lists are those of the LoTLs followed, counted once each, and are what the walk in order gives; the LoTLs followed are within the limit, and are all of those iff the walk loses nothing where it is cut off |
| LotlMeaning.ChainIsRoute | pkg/registry/lote/registry.go:1212-1265 | a chain is a sequence of locations from a configured source on, each the target of a LoTL pointer of the one before and holding a LoTL with a scheme type whose NextUpdate is absent or has not passed |
| LotlMeaning.ListedMeaning | pkg/registry/lote/registry.go:1396-1433 | the lists of a LoTL are those in targets of its other pointers that load and in which no list is out of date |
| LotlMeaning.PointerAdds | pkg/registry/lote/registry.go:1396-1433 | one pointer adds what it delivers, or one failure |
| LotlMeaning.WithinMeaning | pkg/registry/lote/registry.go:1213-1220 | the LoTLs within the limit are those to which such a route of at most that many leads |
| LotlResolve.TotalIgnoresOrder | pkg/registry/lote/registry.go:1212-1265 | what a set of LoTLs yields does not depend on the order in which they are followed |
| LotlResolve.DiscoveryIgnoresOrder | pkg/registry/lote/registry.go:866-875 | when all within the limit are followed, the lists found and the number of pointers that fail do not depend on the order of the configured sources |
| LotlOrder.DeadlineFollowsSourceOrder | pkg/registry/lote/registry.go:1396-1419 | the inherited deadline does depend on that order: a LoTL reached from two sources passes on the date of the first |
| LoteExpiry.NotDueSame | pkg/registry/lote/registry.go:1314-1324 | while the next expiry has not passed, the same lists are live |
| LoteExpiry.LiveAreLoaded | pkg/registry/lote/registry.go:1331-1340 | the live lists are the loaded ones whose deadline has not passed |
| LoteExpiry.ExpiryOnlyDenies | pkg/registry/lote/registry.go:1314-1345 | as time passes a denial stays a denial, under the condition on the role |
| LoteExpiry.CurrentMeansWholeChain | pkg/registry/lote/registry.go:879-885 | a discovered list counts iff neither its own NextUpdate nor that of any LoTL on its chain has passed |
| LoteExpiry.Sweep | pkg/registry/lote/registry.go:1331-1340 | the loop keeps the live lists and their earliest deadline |
| LoteExpiry.Registry.ExpireStale | pkg/registry/lote/registry.go:1314-1345 | for any nondecreasing readings the index is the one built from exactly the lists that are current now |
| LoteExpiry.Registry.Refresh | pkg/registry/lote/registry.go:822-906 | replaces the lists iff every direct source and every LoTL loads, else changes nothing; just loaded, every list is live |
| LoteForce.ForceMeaning | pkg/registry/lote/registry.go:866-906 | at any moment after a refresh the lists in force are those it read, configured or found along a route, of which neither their own NextUpdate nor that of a LoTL on the route has passed |
| LoteExpiry.Registry.Decide | pkg/registry/lote/registry.go:303-392 | at any moment the decision is that of the linear scan of the lists in force |
| CircuitBreakers.CircuitBreaker.CanAttempt | pkg/registry/circuit_breaker.go:53-74 | asks the state and the time since the last failure |
| CircuitBreakers.CircuitBreaker.RecordSuccess | pkg/registry/circuit_breaker.go:78-84 | closes and clears |
| CircuitBreakers.CircuitBreaker.RecordFailure | pkg/registry/circuit_breaker.go:88-105 | counts, notes the time, and opens at the threshold |
| CircuitBreakers.CircuitBreaker.Reset | pkg/registry/circuit_breaker.go:122-128 | closes and clears |
| CircuitBreakers.StateOfHistory | pkg/registry/circuit_breaker.go:42-128 | over every history: open iff the failures since the last success or reset reach max(1, maxFailures), never half-open |
| CircuitBreakers.RefusedExactlyWhen | pkg/registry/circuit_breaker.go:53-74 | an attempt is refused iff the trailing failures reach the threshold and the last is no older than the timeout |
| Strategies.StepKeeps | pkg/registry/strategies.go:546-695 | the invariant of workers, channel, closer and collector is kept by every step of either parallel strategy |
| Strategies.NoSendBlocks | pkg/registry/strategies.go:559-619 | in every reachable state a worker about to send can, and the channel is open, also after an early return |
| Strategies.OneMessageEach | pkg/registry/strategies.go:559-619 | a worker past sending has sent exactly one message, its registry's verdict; before that none |
| Strategies.ParallelDecision | pkg/registry/strategies.go:621-695 | whatever the interleaving, first match and all registries decide that some registry not skipped by its breaker allows |
| Strategies.NeverStuck | pkg/registry/strategies.go:698-826 | a run in which something is unfinished can take a step |
| Strategies.EveryRunEnds | pkg/registry/strategies.go:698-826 | no run has more than 5n+2 steps; one that cannot go on has responded, received n messages and recorded every breaker |
| StrategyMeaning.RunMeaning | pkg/registry/strategies.go:546-826 | a run that is over has returned yes iff a registry that was let through says yes, and left in every breaker what the answer leaves: nothing if it was not asked, a failure for an error or a panic, else a success |
| StrategyMeaning.Completes | pkg/registry/strategies.go:698-826 | every run can be completed: whatever has happened, some further actions bring it to its end |
| StrategyMeaning.AllAreHeard | pkg/registry/strategies.go:698-826 | when all registries are asked, the response comes only after every message has been received |
| StrategyMeaning.FirstMatchStops | pkg/registry/strategies.go:621-695 | first match goes on only while no message it has received says yes |
| Sequential.EvaluateSequential | pkg/registry/strategies.go:438-542 | stops at the first registry that allows or panics, records the breakers up to there and touches no other |
| Sequential.AgreesUnlessPanicFirst | pkg/registry/strategies.go:438-542 | returns the parallel strategies' decision iff no admitted registry panics before one allows, and crashes otherwise |
| StrategyMeaning.SequentialMeaning | pkg/registry/strategies.go:438-542 | the loop ends at the first registry that is let through and says yes or panics, and answers accordingly |
| VerifierIds.KeysDetermineOrder | pkg/registry/verifierid.go:214-224 | identifiers in strictly increasing order are determined by their (type, id) pairs |
| VerifierIds.SortIsStrict | pkg/registry/verifierid.go:214-224 | the stable sort of entries with distinct keys is strictly increasing and keeps the keys |
| VerifierIds.Aggregate.AddChild | pkg/registry/verifierid.go:195-211 | the loops append each entry whose (type, id) is new |
| VerifierIds.Aggregate.MergeVerifierIds | pkg/registry/verifierid.go:187-225 | nothing on a denial; else the sorted first arrivals of the positive children |
| VerifierIds.MergeMeaning | pkg/registry/verifierid.go:187-225 | strictly increasing by (type, id), with exactly the keys of the positive children |
| VerifierIds.MergeIgnoresOrder | pkg/registry/verifierid.go:187-225 | any permutation of the arrivals gives the same sequence of (type, id) |
| VerifierIds.MergeKeepsFirst | pkg/registry/verifierid.go:195-211 | each entry is the first arrival with its key, basis included |
| MergedIds.MergeInFull | pkg/registry/verifierid.go:187-225 | the merged identifiers are exactly the first arrivals of each type and identifier among the replies that agree, ordered by type and then identifier, character by character |
| VerifierIds.BasisFollowsArrival | pkg/registry/verifierid.go:195-211 | the basis does depend on the order of arrival |
| Composites.ApplyLogic | pkg/registry/composite.go:173-275 | counts, operator, merge and the incomplete mark, as one function of the arrived results |
| Composites.Evaluate | pkg/registry/composite.go:116-170 | the collected results, in order of arrival, under the operator; no children is a denial |
| Composites.OutcomeRepresents | pkg/registry/composite.go:116-275 | a nested composite returns its boolean denotation, is incomplete iff some registry below failed, was silent or is incomplete, and lists exactly the identifiers of the agreeing registries on which the decision rests, strictly increasing |
| Composites.OperatorsMean | pkg/registry/composite.go:235-262 | AND is all, OR is some, MAJORITY more than half, QUORUM the threshold if there are enough children, anything else false |
| Composites.RegistryMeans | pkg/registry/composite.go:187-200 | a registry agrees iff it answered without an error and allows, and leaves a doubt iff it failed, was silent or marked its response incomplete |
| Composites.CompositeAnswers | pkg/registry/composite.go:116-275 | a composite answers without error with the decision and doubt of its tree, and with the identifiers of the children that agree, or none when it denies |
| Composites.Monotone | pkg/registry/composite.go:173-262 | one more agreement anywhere in the tree never turns an allow into a denial |
| Composites.ArrivalsDoNotMatter | pkg/registry/composite.go:133-170 | the decision, the identifiers and the incomplete mark are the same for all arrival orders at all levels |
| DidSegments.ParseSegments | pkg/registry/didutil/didutil.go:328-343 | the in-place loop restores each split segment |
| DidSegments.HiddenIsEncode | pkg/registry/didutil/didutil.go:331-333 | the two replacement passes replace every encoded colon of either spelling and create no new one |
| DidSegments.SegmentsAreDecoded | pkg/registry/didutil/didutil.go:328-343 | for every text without NUL, adjacent and overlapping-looking placeholders included, the result is splitting on ':' and then decoding each segment |
| DidSegments.PlaceholderInText | pkg/registry/didutil/didutil.go:328-343 | with NUL characters it can differ |
| DidSyntax.ValidatePercentEncoding | pkg/registry/didutil/didutil.go:272-285 | accepts iff every percent sign starts a complete encoding |
| DidSyntax.ValidateMethodSpecificId | pkg/registry/didutil/didutil.go:213-243 | accepts iff all checks pass |
| DidSyntax.ChecksComeTo | pkg/registry/didutil/didutil.go:213-243 | what the regular expression matches is never refused for its percent-encoding: only for an empty middle segment or dangerous decoded text |
| DidSyntax.RegexIsOneRunOfEscapes | pkg/registry/didutil/didutil.go:71-72 | the regular expression matches exactly the texts over the grammar's characters and percent-encodings in which the encodings form one run |
| DidSyntax.AcceptedIdentifiers | pkg/registry/didutil/didutil.go:213-243 | an identifier of the grammar in section 3.1 of W3C DID Core 1.0 is accepted iff its percent-encodings form one run, no middle segment is empty and nothing in it is dangerous once decoded |
| DidSyntax.AcceptedBeyondGrammar | pkg/registry/didutil/didutil.go:213-243 | what is accepted is in the grammar iff it does not end in a colon |
| DidSyntax.ColonAtEndAccepted | pkg/registry/didutil/didutil.go:230-236 | an accepted identifier that is not in the grammar |
| DidSyntax.TwoRunsRefused | pkg/registry/didutil/didutil.go:71-72 | an identifier of the grammar that is refused |
| DidParse.ParseDid | pkg/registry/didutil/didutil.go:89-164 | the parser, all refusals included |
| DidParse.CutsUndoAppends | pkg/registry/didutil/didutil.go:100-119 | cutting fragment, query and path off undoes appending them, and loses only a separator with nothing behind it |
| DidParse.ParsePrintParse | pkg/registry/didutil/didutil.go:354-371 | parsing the full printed form of an accepted string gives the same DID (section 3.2 of W3C DID Core 1.0), the length limit included |
| DidParse.ParsedMeaning | pkg/registry/didutil/didutil.go:146-163 | the plain printed form is the raw text, and the segments are the directly decoded ones |
| DidMeaning.IdentifierMeaning | pkg/registry/didutil/didutil.go:213-326 | an identifier passes iff it is not empty, has only letters, digits and ._-: and complete percent-encodings in one run, no two colons in a row, and decodes to text without two dots in a row or a harmful character |
| DidMeaning.UnescapeEscape | pkg/registry/didutil/didutil.go:293-300 | decoding undoes percent-encoding, of every byte in either spelling |
| DidMeaning.ParseMeaning | pkg/registry/didutil/didutil.go:89-164 | a string is accepted iff it is at most 2048 long and reads as did:, a method name, a colon and an identifier that passes, then perhaps a path, a query and a fragment of allowed characters, each behind its separator; the result holds exactly these, and the segments split and decoded |
| DidMeaning.PrintRestores | pkg/registry/didutil/didutil.go:354-371 | printing in full gives back the string iff nothing was cut off with an empty part behind its separator |
| DidMeaning.SplitMeaning | pkg/registry/didutil/didutil.go:328-343 | the segments are the parts between the colons |
| DidMeaning.DecodeMeaning | pkg/registry/didutil/didutil.go:328-343 | decoding a segment undoes the encoding of its colons, in either spelling |

## Left out

- HTTP handlers and clients, dialing rules, retries, rate limits, metrics, configuration and command line: no algorithm behind them.
- Signatures, hashes, X.509, JSON and canonicalisation: function values and predicates; certificate parsing in the eMRTD request is the value `Malformed` or the parsed certificates.
- Reason maps, messages, durations, trust metadata and logging: only decisions, denial codes, verifier identifiers and the incomplete mark are kept.
- eMRTD file loading and watching: the snapshot of anchors and revocation lists is given; the watch loop's debounce is not modelled.
- LoTE x5c requests, certificate pools, the byID and all views of the index, the National Register lookup and classic list conversion: a classic pointer is a pointer whose target loads or fails.
- LoTE status texts are lower-cased only as far as that can make an ASCII letter, which is all that the search for "withdrawn" can see; which list types are public-attestation types is a predicate.
- LoTE `hashServiceDigitalIdentity`: a service carries its hashes.
- ETSI and LoTE documents are values: a pruned copy and a discovered list are equal when their contents are, where the program compares pointers. The inherited deadline is kept with the list rather than in a map keyed by pointer.
- LotlResolve.Discover: with a depth limit the number of skipped pointers is not related to the pointers that fail, because a pointer that the limit cuts off is not tried. The list of LoTL dates kept for freshness reports is not modelled.
- The several readings of the clock within one call are one reading. A NextUpdate that is the zero time counts as absent.
- Integer widths: step counts, failures and thresholds are unbounded; they are far from overflow.
- Secp256k1.DecompressCompress: the primality of the field modulus is a hypothesis, as in AnswerIsUnique, RefusesNonResidues, AcceptsExactlyPoints and CubeRoots.
- Strategies.EveryRunEnds: each registry's answer and its time are fixed for a run. Timeouts, and the cancellation of the slower registries when first match returns early, act on these answers: a cancelled registry is one that fails, and its breaker records that.
- Strategies: a registry's Info is assumed not to panic and breakers are found by position, one for each registry, not by name; best match adds nothing to the decision. In the composite registry a child's panic is not recovered and ends the program, which is not modelled.
- DidParse.ParseDid: a string is its bytes, and which characters beyond ASCII are letters or digits is a predicate on the fragment; all refusals are one.
- did:webvh witness proofs, pagination of the log reader and key binding: not part of the log's verification loop.
