/** Threshold signing: a t-of-n scheme, the plain collector over a list, the aggregator over a map, and
    what two complete collections have in common.  Signature verification is a parameter. */
module Threshold {
  import opened Encoding

  /** Message, signature, key. */
  type SignatureCheck = (Bytes, Bytes, PublicKey) -> bool

  datatype ThresholdScheme = ThresholdScheme(totalParticipants: nat, threshold: nat, participants: seq<PublicKey>)

  datatype PartialSignature = PartialSignature(signer: PublicKey, signature: Bytes, participantIndex: nat)

  function NewScheme(threshold: nat, participants: seq<PublicKey>): Result<ThresholdScheme> {
    if threshold == 0 then Err(CryptoError("Threshold must be at least 1"))
    else if threshold > |participants| then Err(CryptoError("Threshold cannot exceed total participants"))
    else if |participants| == 0 then Err(CryptoError("Must have at least one participant"))
    else if |set p | p in participants| != |participants| then Err(CryptoError("Duplicate participants not allowed"))
    else Ok(ThresholdScheme(|participants|, threshold, participants))
  }

  function ParticipantIndex(participants: seq<PublicKey>, key: PublicKey): (r: Option<nat>)
    ensures r.Some? <==> key in participants
    ensures r.Some? ==> r.value < |participants| && participants[r.value] == key
    ensures r.Some? ==> forall j | 0 <= j < r.value :: participants[j] != key
  {
    if participants == [] then None
    else if participants[0] == key then Some(0)
    else match ParticipantIndex(participants[1..], key)
      case None => None
      case Some(i) => Some(i + 1)
  }

  /** What a submission leads to. */
  datatype Outcome = Accepted(complete: bool) | NotParticipant | Duplicate | BadSignature

  predicate IsMet(scheme: ThresholdScheme, count: nat) { count >= scheme.threshold }

  function SignerSet(sigs: seq<PartialSignature>): set<PublicKey> { set p | p in sigs :: p.signer }

  /** The plain collector: checks in the source's order, then appends. */
  function Collect(check: SignatureCheck, scheme: ThresholdScheme, message: Bytes, sigs: seq<PartialSignature>,
                   p: PartialSignature): Outcome
  {
    if p.signer !in scheme.participants then NotParticipant
    else if p.signer in SignerSet(sigs) then Duplicate
    else if !check(message, p.signature, p.signer) then BadSignature
    else Accepted(IsMet(scheme, |sigs| + 1))
  }

  /** The aggregator: the same protocol over a map, with the index computed rather than submitted. */
  function Aggregate(check: SignatureCheck, scheme: ThresholdScheme, message: Bytes,
                     table: map<PublicKey, PartialSignature>, signer: PublicKey, signature: Bytes): Outcome
  {
    if ParticipantIndex(scheme.participants, signer).None? then NotParticipant
    else if signer in table then Duplicate
    else if !check(message, signature, signer) then BadSignature
    else Accepted(IsMet(scheme, |table.Keys + {signer}|))
  }

  function Verdict(o: Outcome): Result<bool> {
    match o
    case Accepted(complete) => Ok(complete)
    case NotParticipant => Err(InvalidValidator("Signer not in threshold scheme"))
    case Duplicate => Err(CryptoError("Duplicate signature"))
    case BadSignature => Err(CryptoError("Signature verification failed"))
  }

  predicate AllVerify(check: SignatureCheck, message: Bytes, sigs: seq<PartialSignature>) {
    forall p | p in sigs :: check(message, p.signature, p.signer)
  }

  class ThresholdSignature {
    const scheme: ThresholdScheme
    const messageHash: Bytes
    var partialSignatures: seq<PartialSignature>

    constructor (scheme: ThresholdScheme, messageHash: Bytes)
      ensures this.scheme == scheme && this.messageHash == messageHash && partialSignatures == []
    {
      this.scheme := scheme;
      this.messageHash := messageHash;
      partialSignatures := [];
    }

    method AddPartialSignature(check: SignatureCheck, p: PartialSignature) returns (r: Result<bool>)
      modifies this
      ensures r == Verdict(Collect(check, scheme, messageHash, old(partialSignatures), p))
      ensures partialSignatures == if r.Ok? then old(partialSignatures) + [p] else old(partialSignatures)
      ensures r.Ok? ==> (r.value <==> IsMet(scheme, |partialSignatures|))
    {
      if p.signer !in scheme.participants {
        return Err(InvalidValidator("Signer not in threshold scheme"));
      }
      for i := 0 to |partialSignatures|
        invariant partialSignatures == old(partialSignatures)
        invariant forall j | 0 <= j < i :: partialSignatures[j].signer != p.signer
      {
        if partialSignatures[i].signer == p.signer {
          assert partialSignatures[i] in partialSignatures;
          return Err(CryptoError("Duplicate signature"));
        }
      }
      if !check(messageHash, p.signature, p.signer) {
        return Err(CryptoError("Signature verification failed"));
      }
      partialSignatures := partialSignatures + [p];
      r := Ok(|partialSignatures| >= scheme.threshold);
    }

    method Verify(check: SignatureCheck) returns (r: Result<()>)
      ensures r.Ok? <==> Passes(check, scheme, messageHash, partialSignatures)
      ensures r == Err(InsufficientValidators) <==> !IsMet(scheme, |partialSignatures|)
    {
      if |partialSignatures| < scheme.threshold {
        return Err(InsufficientValidators);
      }
      for i := 0 to |partialSignatures|
        invariant forall j | 0 <= j < i ::
                    check(messageHash, partialSignatures[j].signature, partialSignatures[j].signer)
      {
        if !check(messageHash, partialSignatures[i].signature, partialSignatures[i].signer) {
          assert partialSignatures[i] in partialSignatures;
          return Err(CryptoError("Signature verification failed"));
        }
      }
      r := Ok(());
    }
  }

  class ThresholdAggregator {
    const scheme: ThresholdScheme
    const message: Bytes
    const messageHash: Hash
    var signatures: map<PublicKey, PartialSignature>

    constructor (H: HashFn, scheme: ThresholdScheme, message: Bytes)
      ensures this.scheme == scheme && this.message == message && messageHash == H(message) && signatures == map[]
    {
      this.scheme := scheme;
      this.message := message;
      messageHash := H(message);
      signatures := map[];
    }

    method AddSignature(check: SignatureCheck, signer: PublicKey, signature: Bytes) returns (r: Result<bool>)
      modifies this
      ensures r == Verdict(Aggregate(check, scheme, messageHash, old(signatures), signer, signature))
      ensures signatures == TableAfter(check, scheme, messageHash, old(signatures), signer, signature)
      ensures r.Ok? ==> (r.value <==> IsMet(scheme, |signatures|))
    {
      var index := ParticipantIndex(scheme.participants, signer);
      if index.None? {
        return Err(InvalidValidator("Signer not in threshold scheme"));
      }
      if signer in signatures {
        return Err(CryptoError("Duplicate signature"));
      }
      if !check(messageHash, signature, signer) {
        return Err(CryptoError("Signature verification failed"));
      }
      signatures := signatures[signer := PartialSignature(signer, signature, index.value)];
      assert signatures.Keys == old(signatures).Keys + {signer};
      r := Ok(|signatures| >= scheme.threshold);
    }

    /** The map's values in some order, as a threshold signature. */
    method Finalize() returns (r: Result<ThresholdSignature>)
      ensures r.Ok? <==> IsMet(scheme, |signatures|)
      ensures r.Err? ==> r.error == InsufficientValidators
      ensures r.Ok? ==>
                && fresh(r.value) && r.value.scheme == scheme && r.value.messageHash == messageHash
                && |r.value.partialSignatures| == |signatures|
                && (forall p :: p in r.value.partialSignatures <==> p in signatures.Values)
    {
      if |signatures| < scheme.threshold {
        return Err(InsufficientValidators);
      }
      var result := new ThresholdSignature(scheme, messageHash);
      var pending := signatures.Keys;
      while pending != {}
        invariant pending <= signatures.Keys && signatures == old(signatures)
        invariant |result.partialSignatures| == |signatures| - |pending|
        invariant forall p :: p in result.partialSignatures
                         <==> exists k :: k in signatures && k !in pending && signatures[k] == p
        decreases |pending|
      {
        var k :| k in pending;
        pending := pending - {k};
        result.partialSignatures := result.partialSignatures + [signatures[k]];
      }
      r := Ok(result);
    }
  }

  // ---------------------------------------------------------------- runs

  /** The list after a submission. */
  function ListAfter(check: SignatureCheck, scheme: ThresholdScheme, message: Bytes, sigs: seq<PartialSignature>,
                     p: PartialSignature): seq<PartialSignature>
  {
    if Collect(check, scheme, message, sigs, p).Accepted? then sigs + [p] else sigs
  }

  /** The map after a submission. */
  function TableAfter(check: SignatureCheck, scheme: ThresholdScheme, message: Bytes,
                      table: map<PublicKey, PartialSignature>, signer: PublicKey,
                      signature: Bytes): map<PublicKey, PartialSignature>
  {
    if Aggregate(check, scheme, message, table, signer, signature).Accepted?
    then table[signer := PartialSignature(signer, signature, ParticipantIndex(scheme.participants, signer).value)]
    else table
  }

  function CollectRun(check: SignatureCheck, scheme: ThresholdScheme, message: Bytes,
                      items: seq<PartialSignature>): seq<PartialSignature>
  {
    if items == [] then []
    else ListAfter(check, scheme, message, CollectRun(check, scheme, message, items[..|items| - 1]), items[|items| - 1])
  }

  function AggregateRun(check: SignatureCheck, scheme: ThresholdScheme, message: Bytes,
                        items: seq<PartialSignature>): map<PublicKey, PartialSignature>
  {
    if items == [] then map[]
    else
      var last := items[|items| - 1];
      TableAfter(check, scheme, message, AggregateRun(check, scheme, message, items[..|items| - 1]),
                 last.signer, last.signature)
  }

  /** What each submission of a run leads to, in order. */
  function CollectOutcomes(check: SignatureCheck, scheme: ThresholdScheme, message: Bytes,
                           items: seq<PartialSignature>): seq<Outcome>
  {
    if items == [] then []
    else
      var prefix := items[..|items| - 1];
      CollectOutcomes(check, scheme, message, prefix)
      + [Collect(check, scheme, message, CollectRun(check, scheme, message, prefix), items[|items| - 1])]
  }

  function AggregateOutcomes(check: SignatureCheck, scheme: ThresholdScheme, message: Bytes,
                             items: seq<PartialSignature>): seq<Outcome>
  {
    if items == [] then []
    else
      var prefix, last := items[..|items| - 1], items[|items| - 1];
      AggregateOutcomes(check, scheme, message, prefix)
      + [Aggregate(check, scheme, message, AggregateRun(check, scheme, message, prefix), last.signer, last.signature)]
  }

  /** Distinct participants, each with a signature that verifies. */
  ghost predicate Sound(check: SignatureCheck, scheme: ThresholdScheme, message: Bytes, sigs: seq<PartialSignature>) {
    && (forall i, j | 0 <= i < j < |sigs| :: sigs[i].signer != sigs[j].signer)
    && (forall p | p in sigs :: p.signer in scheme.participants && check(message, p.signature, p.signer))
  }

  /** List and map hold the same signatures of the same signers, and the map's indexes are the scheme's. */
  ghost predicate Related(scheme: ThresholdScheme, sigs: seq<PartialSignature>,
                          table: map<PublicKey, PartialSignature>)
  {
    && table.Keys == SignerSet(sigs) && |table| == |sigs|
    && (forall p | p in sigs :: p.signer in table && table[p.signer].signature == p.signature)
    && (forall k | k in table ::
          table[k].signer == k && Some(table[k].participantIndex) == ParticipantIndex(scheme.participants, k))
  }

  lemma {:induction false} SignersGrow(sigs: seq<PartialSignature>, p: PartialSignature)
    ensures SignerSet(sigs + [p]) == SignerSet(sigs) + {p.signer}
  {
  }

  lemma {:induction false} CollectKeepsSound(check: SignatureCheck, scheme: ThresholdScheme, message: Bytes,
                                             sigs: seq<PartialSignature>, p: PartialSignature)
    requires Sound(check, scheme, message, sigs)
    ensures Sound(check, scheme, message, ListAfter(check, scheme, message, sigs, p))
  {
    if Collect(check, scheme, message, sigs, p).Accepted? {
      assert forall i | 0 <= i < |sigs| :: sigs[i] in sigs;
    }
  }

  lemma {:induction false} SameOutcome(check: SignatureCheck, scheme: ThresholdScheme, message: Bytes,
                                       sigs: seq<PartialSignature>, table: map<PublicKey, PartialSignature>,
                                       p: PartialSignature)
    requires table.Keys == SignerSet(sigs) && |table| == |sigs|
    ensures Collect(check, scheme, message, sigs, p) == Aggregate(check, scheme, message, table, p.signer, p.signature)
  {
    if p.signer !in table {
      assert |table.Keys + {p.signer}| == |sigs| + 1;
    }
  }

  lemma {:induction false} StaysRelated(scheme: ThresholdScheme, sigs: seq<PartialSignature>,
                                        table: map<PublicKey, PartialSignature>, p: PartialSignature, index: nat)
    requires Related(scheme, sigs, table) && p.signer !in table
    requires Some(index) == ParticipantIndex(scheme.participants, p.signer)
    ensures Related(scheme, sigs + [p], table[p.signer := PartialSignature(p.signer, p.signature, index)])
  {
    SignersGrow(sigs, p);
    TableGrows(table, p.signer, PartialSignature(p.signer, p.signature, index));
    SignaturesKept(sigs, table, p, index);
  }

  lemma {:induction false} TableGrows(table: map<PublicKey, PartialSignature>, k: PublicKey, p: PartialSignature)
    requires k !in table
    ensures table[k := p].Keys == table.Keys + {k} && |table[k := p]| == |table| + 1
  {
    assert table[k := p].Keys == table.Keys + {k};
    assert |table[k := p]| == |table[k := p].Keys| && |table| == |table.Keys|;
  }

  lemma {:induction false} SignaturesKept(sigs: seq<PartialSignature>, table: map<PublicKey, PartialSignature>,
                                          p: PartialSignature, index: nat)
    requires p.signer !in table && forall q | q in sigs :: q.signer in table && table[q.signer].signature == q.signature
    ensures var after := table[p.signer := PartialSignature(p.signer, p.signature, index)];
            forall q | q in sigs + [p] :: q.signer in after && after[q.signer].signature == q.signature
  {
    var after := table[p.signer := PartialSignature(p.signer, p.signature, index)];
    forall q | q in sigs + [p]
      ensures q.signer in after && after[q.signer].signature == q.signature
    {
      assert q in sigs || q == p;
    }
  }

  lemma {:induction false} StepAgrees(check: SignatureCheck, scheme: ThresholdScheme, message: Bytes,
                                      sigs: seq<PartialSignature>, table: map<PublicKey, PartialSignature>,
                                      p: PartialSignature)
    requires Related(scheme, sigs, table)
    ensures Collect(check, scheme, message, sigs, p) == Aggregate(check, scheme, message, table, p.signer, p.signature)
    ensures Related(scheme, ListAfter(check, scheme, message, sigs, p),
                    TableAfter(check, scheme, message, table, p.signer, p.signature))
  {
    SameOutcome(check, scheme, message, sigs, table, p);
    if Collect(check, scheme, message, sigs, p).Accepted? {
      StaysRelated(scheme, sigs, table, p, ParticipantIndex(scheme.participants, p.signer).value);
    }
  }

  /** The aggregator refines the plain collector: on every submission sequence both accept and reject the same
      items for the same reasons and report completion at the same step; what they hold agrees, and signers
      stay distinct participants with verified signatures. */
  lemma {:induction false} AggregatorRefinesCollector(check: SignatureCheck, scheme: ThresholdScheme, message: Bytes,
                                                      items: seq<PartialSignature>)
    ensures CollectOutcomes(check, scheme, message, items) == AggregateOutcomes(check, scheme, message, items)
    ensures Related(scheme, CollectRun(check, scheme, message, items), AggregateRun(check, scheme, message, items))
    ensures Sound(check, scheme, message, CollectRun(check, scheme, message, items))
  {
    if items != [] {
      var prefix, last := items[..|items| - 1], items[|items| - 1];
      AggregatorRefinesCollector(check, scheme, message, prefix);
      var sigs := CollectRun(check, scheme, message, prefix);
      StepAgrees(check, scheme, message, sigs, AggregateRun(check, scheme, message, prefix), last);
      CollectKeepsSound(check, scheme, message, sigs, last);
    }
  }

  /** Whatever order `finalize` lists the map's values in, the result passes `verify` and is a sound collection. */
  lemma {:induction false} FinalizedVerifies(check: SignatureCheck, scheme: ThresholdScheme, message: Bytes,
                                             items: seq<PartialSignature>, result: seq<PartialSignature>)
    requires var table := AggregateRun(check, scheme, message, items);
             && IsMet(scheme, |table|) && |result| == |table|
             && (forall p :: p in result <==> p in table.Values)
    ensures IsMet(scheme, |result|) && AllVerify(check, message, result)
    ensures SignerSet(result) == SignerSet(CollectRun(check, scheme, message, items))
    ensures |SignerSet(result)| == |result|
  {
    var table := AggregateRun(check, scheme, message, items);
    TableSound(check, scheme, message, items);
    forall p | p in result
      ensures p.signer in table && check(message, p.signature, p.signer)
    {
      var k :| k in table && table[k] == p;
    }
    forall k | k in table
      ensures k in SignerSet(result)
    {
      assert table[k] in table.Values;
    }
    assert SignerSet(result) == table.Keys;
  }

  /** What the aggregator holds: under each collected signer that signer's verified signature. */
  lemma {:induction false} TableSound(check: SignatureCheck, scheme: ThresholdScheme, message: Bytes,
                                      items: seq<PartialSignature>)
    ensures var table := AggregateRun(check, scheme, message, items);
            && table.Keys == SignerSet(CollectRun(check, scheme, message, items))
            && forall k | k in table :: table[k].signer == k && check(message, table[k].signature, k)
  {
    var sigs, table := CollectRun(check, scheme, message, items), AggregateRun(check, scheme, message, items);
    AggregatorRefinesCollector(check, scheme, message, items);
    forall k | k in table
      ensures check(message, table[k].signature, k)
    {
      var q :| q in sigs && q.signer == k;
    }
  }

  // ---------------------------------------------------------------- what verify means

  /** What `verify` checks of a list of partial signatures. */
  predicate Passes(check: SignatureCheck, scheme: ThresholdScheme, message: Bytes, sigs: seq<PartialSignature>) {
    IsMet(scheme, |sigs|) && AllVerify(check, message, sigs)
  }

  ghost predicate DistinctParticipants(scheme: ThresholdScheme, sigs: seq<PartialSignature>) {
    && (forall i, j | 0 <= i < j < |sigs| :: sigs[i].signer != sigs[j].signer)
    && (forall p | p in sigs :: p.signer in scheme.participants)
  }

  /** The participants who signed. */
  function Vouching(scheme: ThresholdScheme, sigs: seq<PartialSignature>): set<PublicKey> {
    set k | k in SignerSet(sigs) && k in scheme.participants
  }

  /** A list never has more participants than entries, and as many exactly if it lists distinct participants. */
  lemma {:induction false} VouchingCount(scheme: ThresholdScheme, sigs: seq<PartialSignature>)
    ensures |Vouching(scheme, sigs)| <= |sigs|
    ensures |Vouching(scheme, sigs)| == |sigs| <==> DistinctParticipants(scheme, sigs)
  {
    if sigs == [] {
      assert Vouching(scheme, sigs) == {};
    } else {
      var n := |sigs| - 1;
      var prefix, p := sigs[..n], sigs[n];
      assert sigs == prefix + [p];
      VouchingCount(scheme, prefix);
      SignersGrow(prefix, p);
      DistinctGrows(scheme, prefix, p);
      VouchingGrows(scheme, prefix, p);
    }
  }

  lemma {:induction false} VouchingGrows(scheme: ThresholdScheme, sigs: seq<PartialSignature>, p: PartialSignature)
    ensures |Vouching(scheme, sigs + [p])|
         == |Vouching(scheme, sigs)| + if p.signer in scheme.participants && p.signer !in SignerSet(sigs) then 1 else 0
  {
    SignersGrow(sigs, p);
    var before, after := Vouching(scheme, sigs), Vouching(scheme, sigs + [p]);
    if p.signer in scheme.participants && p.signer !in SignerSet(sigs) {
      assert after == before + {p.signer};
    } else {
      assert after == before;
    }
  }

  lemma {:induction false} DistinctGrows(scheme: ThresholdScheme, sigs: seq<PartialSignature>, p: PartialSignature)
    ensures DistinctParticipants(scheme, sigs + [p])
       <==> DistinctParticipants(scheme, sigs) && p.signer in scheme.participants && p.signer !in SignerSet(sigs)
  {
    var longer := sigs + [p];
    assert forall i | 0 <= i < |sigs| :: longer[i] == sigs[i];
    if DistinctParticipants(scheme, longer) {
      assert longer[|sigs|] == p && p in longer;
      forall q | q in sigs
        ensures q in longer && q.signer != p.signer
      {
        var i :| 0 <= i < |sigs| && sigs[i] == q;
        assert longer[i].signer != longer[|sigs|].signer;
      }
    }
  }

  /** `verify` checks neither participation nor distinctness.  For verifying signatures, passing at a threshold
      means that many participants signed, whatever the threshold, exactly if the list is one of distinct
      participants. */
  lemma {:induction false} VerifyNeedsDistinct(check: SignatureCheck, scheme: ThresholdScheme, message: Bytes,
                                               sigs: seq<PartialSignature>)
    requires AllVerify(check, message, sigs)
    ensures (forall t: nat :: Passes(check, scheme.(threshold := t), message, sigs) ==> |Vouching(scheme, sigs)| >= t)
       <==> DistinctParticipants(scheme, sigs)
  {
    VouchingCount(scheme, sigs);
    assert Passes(check, scheme.(threshold := |sigs|), message, sigs);
  }

  /** One verifying signature, listed as often as the threshold asks, passes although one key signed. */
  lemma {:induction false} RepeatedSignaturePasses(check: SignatureCheck, scheme: ThresholdScheme, message: Bytes,
                                                   p: PartialSignature)
    requires check(message, p.signature, p.signer)
    ensures var sigs := seq<PartialSignature>(scheme.threshold, _ => p);
            && Passes(check, scheme, message, sigs) && SignerSet(sigs) <= {p.signer}
            && (scheme.threshold > 1 ==> |Vouching(scheme, sigs)| < scheme.threshold)
  {
    var sigs := seq<PartialSignature>(scheme.threshold, _ => p);
    if scheme.threshold > 1 {
      VouchingCount(scheme, sigs);
      assert sigs[0].signer == sigs[1].signer;
    }
  }

  /** Lists that were collected, aggregated or created are of that kind, so for them passing is a quorum. */
  lemma {:induction false} CollectedQuorum(check: SignatureCheck, scheme: ThresholdScheme, message: Bytes,
                                           items: seq<PartialSignature>)
    ensures var sigs := CollectRun(check, scheme, message, items);
            && DistinctParticipants(scheme, sigs)
            && (Passes(check, scheme, message, sigs) <==> |Vouching(scheme, sigs)| >= scheme.threshold)
  {
    var sigs := CollectRun(check, scheme, message, items);
    CollectedSound(check, scheme, message, items);
    VouchingCount(scheme, sigs);
  }

  // ---------------------------------------------------------------- create_threshold_signature

  function CreateThresholdSignature(check: SignatureCheck, scheme: ThresholdScheme, message: Bytes,
                                    items: seq<PartialSignature>): Result<seq<PartialSignature>>
  {
    match AddAll(check, scheme, message, items)
    case Err(e) => Err(e)
    case Ok(sigs) => if IsMet(scheme, |sigs|) then Ok(sigs) else Err(InsufficientValidators)
  }

  function AddAll(check: SignatureCheck, scheme: ThresholdScheme, message: Bytes,
                  items: seq<PartialSignature>): Result<seq<PartialSignature>>
  {
    if items == [] then Ok([])
    else match AddAll(check, scheme, message, items[..|items| - 1])
      case Err(e) => Err(e)
      case Ok(sigs) =>
        match Verdict(Collect(check, scheme, message, sigs, items[|items| - 1]))
        case Err(e) => Err(e)
        case Ok(_) => Ok(sigs + [items[|items| - 1]])
  }

  lemma {:induction false} SoundPrefix(check: SignatureCheck, scheme: ThresholdScheme, message: Bytes,
                                       items: seq<PartialSignature>, n: nat)
    requires Sound(check, scheme, message, items) && n < |items|
    ensures Sound(check, scheme, message, items[..n]) && items[n].signer !in SignerSet(items[..n])
  {
    assert forall i | 0 <= i < n :: items[..n][i] == items[i];
  }

  lemma {:induction false} AddAllExact(check: SignatureCheck, scheme: ThresholdScheme, message: Bytes,
                                       items: seq<PartialSignature>)
    ensures AddAll(check, scheme, message, items).Ok? <==> Sound(check, scheme, message, items)
    ensures AddAll(check, scheme, message, items).Ok? ==> AddAll(check, scheme, message, items).value == items
  {
    if items != [] {
      var n := |items| - 1;
      var prefix, last := items[..n], items[n];
      AddAllExact(check, scheme, message, prefix);
      assert items == prefix + [last];
      if Sound(check, scheme, message, items) {
        SoundPrefix(check, scheme, message, items, n);
        assert last in items;
      } else if Sound(check, scheme, message, prefix) && Collect(check, scheme, message, prefix, last).Accepted? {
        CollectKeepsSound(check, scheme, message, prefix, last);
      }
    }
  }

  /** The convenience constructor succeeds exactly on collections of distinct participants with verifying
      signatures that reach the threshold, and keeps them as given. */
  lemma {:induction false} CreateExact(check: SignatureCheck, scheme: ThresholdScheme, message: Bytes,
                                       items: seq<PartialSignature>)
    ensures CreateThresholdSignature(check, scheme, message, items).Ok?
       <==> Sound(check, scheme, message, items) && IsMet(scheme, |items|)
    ensures CreateThresholdSignature(check, scheme, message, items).Ok?
        ==> CreateThresholdSignature(check, scheme, message, items) == Ok(items)
  {
    AddAllExact(check, scheme, message, items);
  }

  /** The loop of `create_threshold_signature` over the submitted signatures. */
  method CreateFrom(H: HashFn, check: SignatureCheck, scheme: ThresholdScheme, message: Bytes,
                    items: seq<PartialSignature>)
    returns (r: Result<ThresholdSignature>)
    ensures match CreateThresholdSignature(check, scheme, H(message), items)
            case Err(e) => r == Err(e)
            case Ok(sigs) =>
              && r.Ok? && fresh(r.value) && r.value.partialSignatures == sigs
              && r.value.scheme == scheme && r.value.messageHash == H(message)
  {
    var result := new ThresholdSignature(scheme, H(message));
    for i := 0 to |items|
      invariant AddAll(check, scheme, H(message), items[..i]) == Ok(result.partialSignatures)
    {
      assert items[..i + 1][..i] == items[..i];
      var added := result.AddPartialSignature(check, items[i]);
      if added.Err? {
        AddAllStops(check, scheme, H(message), items, i + 1, |items|);
        assert items[..|items|] == items;
        return Err(added.error);
      }
    }
    assert items[..|items|] == items;
    if |result.partialSignatures| < scheme.threshold {
      return Err(InsufficientValidators);
    }
    r := Ok(result);
  }

  lemma {:induction false} AddAllStops(check: SignatureCheck, scheme: ThresholdScheme, message: Bytes,
                                       items: seq<PartialSignature>, n: nat, m: nat)
    requires n <= m <= |items| && AddAll(check, scheme, message, items[..n]).Err?
    ensures AddAll(check, scheme, message, items[..m]) == AddAll(check, scheme, message, items[..n])
    decreases m
  {
    if n < m {
      AddAllStops(check, scheme, message, items, n, m - 1);
      assert items[..m][..m - 1] == items[..m - 1];
    }
  }

  // ---------------------------------------------------------------- quorum intersection

  lemma {:induction false} SignerCount(sigs: seq<PartialSignature>)
    requires forall i, j | 0 <= i < j < |sigs| :: sigs[i].signer != sigs[j].signer
    ensures |SignerSet(sigs)| == |sigs|
  {
    if sigs != [] {
      var n := |sigs| - 1;
      SignerCount(sigs[..n]);
      assert sigs == sigs[..n] + [sigs[n]];
      SignersGrow(sigs[..n], sigs[n]);
      assert sigs[n].signer !in SignerSet(sigs[..n]);
    }
  }

  lemma {:induction false} SubsetSize<T>(a: set<T>, b: set<T>)
    requires a <= b
    ensures |a| <= |b|
  {
    if a != {} {
      var x :| x in a;
      SubsetSize(a - {x}, b - {x});
    }
  }

  lemma {:induction false} UnionSize<T>(a: set<T>, b: set<T>)
    ensures |a + b| + |a * b| == |a| + |b|
  {
  }

  /** Two complete collections under one scheme share at least 2t - n signers, and more than a third of the
      participants when the threshold exceeds two thirds. */
  lemma {:induction false} QuorumsIntersect(check: SignatureCheck, threshold: nat, participants: seq<PublicKey>,
                                            scheme: ThresholdScheme, messageA: Bytes, a: seq<PartialSignature>,
                                            messageB: Bytes, b: seq<PartialSignature>)
    requires NewScheme(threshold, participants) == Ok(scheme)
    requires IsMet(scheme, |CollectRun(check, scheme, messageA, a)|)
    requires IsMet(scheme, |CollectRun(check, scheme, messageB, b)|)
    ensures var common := SignerSet(CollectRun(check, scheme, messageA, a))
                          * SignerSet(CollectRun(check, scheme, messageB, b));
            && |common| >= 2 * threshold - |participants|
            && (3 * threshold > 2 * |participants| ==> 3 * |common| > |participants|)
            && (forall k | k in common :: k in participants)
  {
    CollectedSound(check, scheme, messageA, a);
    CollectedSound(check, scheme, messageB, b);
    SoundQuorums(check, scheme, messageA, CollectRun(check, scheme, messageA, a),
                 messageB, CollectRun(check, scheme, messageB, b));
  }

  lemma {:induction false} CollectedSound(check: SignatureCheck, scheme: ThresholdScheme, message: Bytes,
                                          items: seq<PartialSignature>)
    ensures Sound(check, scheme, message, CollectRun(check, scheme, message, items))
  {
    AggregatorRefinesCollector(check, scheme, message, items);
  }

  lemma {:induction false} SoundQuorums(check: SignatureCheck, scheme: ThresholdScheme, messageA: Bytes,
                                        x: seq<PartialSignature>, messageB: Bytes, y: seq<PartialSignature>)
    requires Sound(check, scheme, messageA, x) && Sound(check, scheme, messageB, y)
    requires |x| >= scheme.threshold && |y| >= scheme.threshold
    requires |set p | p in scheme.participants| == |scheme.participants|
    ensures |SignerSet(x) * SignerSet(y)| >= 2 * scheme.threshold - |scheme.participants|
    ensures forall k | k in SignerSet(x) * SignerSet(y) :: k in scheme.participants
  {
    SignerCount(x);
    SignerCount(y);
    UnionSize(SignerSet(x), SignerSet(y));
    SubsetSize(SignerSet(x) + SignerSet(y), set p | p in scheme.participants);
  }
}
