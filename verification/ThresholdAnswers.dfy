/** What collector and aggregator answer, in terms of the submissions alone. */
module ThresholdAnswers {
  import opened Encoding
  import opened Threshold

  // ---------------------------------------------------------------- schemes

  /** A scheme is made exactly for a threshold between one and the number of participants, none of them twice. */
  lemma {:induction false} NewSchemeExact(threshold: nat, participants: seq<PublicKey>)
    ensures NewScheme(threshold, participants).Ok? <==> 1 <= threshold <= |participants| && Distinct(participants)
    ensures NewScheme(threshold, participants).Ok? ==>
              var s := NewScheme(threshold, participants).value;
              && s.threshold == threshold && s.participants == participants
              && s.totalParticipants == |participants|
  {
    DistinctCount(participants);
  }

  /** Why one is refused: a zero threshold before one too high, and that before a participant named twice. */
  lemma {:induction false} NewSchemeRefuses(threshold: nat, participants: seq<PublicKey>)
    requires NewScheme(threshold, participants).Err?
    ensures NewScheme(threshold, participants)
         == Err(CryptoError(if threshold == 0 then "Threshold must be at least 1"
                            else if threshold > |participants| then "Threshold cannot exceed total participants"
                            else "Duplicate participants not allowed"))
  {
  }

  // ---------------------------------------------------------------- who has signed

  ghost predicate Verifies(check: SignatureCheck, message: Bytes, p: PartialSignature) {
    check(message, p.signature, p.signer)
  }

  /** Among the submissions there is one of this participant that verifies. */
  ghost predicate HasSigned(check: SignatureCheck, scheme: ThresholdScheme, message: Bytes,
                            items: seq<PartialSignature>, k: PublicKey)
  {
    k in scheme.participants && exists p :: p in items && p.signer == k && Verifies(check, message, p)
  }

  /** The collected signers are exactly the participants who submitted a signature that verifies. */
  lemma {:induction false} SignersExact(check: SignatureCheck, scheme: ThresholdScheme, message: Bytes,
                                        items: seq<PartialSignature>, k: PublicKey)
    ensures k in SignerSet(CollectRun(check, scheme, message, items))
       <==> HasSigned(check, scheme, message, items, k)
  {
    if items != [] {
      var n := |items| - 1;
      var before := CollectRun(check, scheme, message, items[..n]);
      SignersExact(check, scheme, message, items[..n], k);
      assert items == items[..n] + [items[n]];
      SignersGrow(before, items[n]);
      HasSignedGrows(check, scheme, message, items[..n], items[n], k);
    }
  }

  lemma {:induction false} HasSignedGrows(check: SignatureCheck, scheme: ThresholdScheme, message: Bytes,
                                          items: seq<PartialSignature>, p: PartialSignature, k: PublicKey)
    ensures HasSigned(check, scheme, message, items + [p], k)
       <==> || HasSigned(check, scheme, message, items, k)
            || (p.signer == k && k in scheme.participants && Verifies(check, message, p))
  {
    assert p in items + [p] && forall q | q in items :: q in items + [p];
  }

  // ---------------------------------------------------------------- answers

  /** The right answer to a submission: whether the threshold is reached with it, or why it is refused. */
  ghost predicate RightAnswer(participant: bool, signed: bool, verifies: bool, answer: Result<bool>, complete: bool) {
    if !participant then answer == Err(InvalidValidator("Signer not in threshold scheme"))
    else if signed then answer == Err(CryptoError("Duplicate signature"))
    else if !verifies then answer == Err(CryptoError("Signature verification failed"))
    else answer == Ok(complete)
  }

  /** The right answer to `p` after `items`. */
  ghost predicate Answers(check: SignatureCheck, scheme: ThresholdScheme, message: Bytes,
                          items: seq<PartialSignature>, p: PartialSignature, answer: Result<bool>, complete: bool)
  {
    RightAnswer(p.signer in scheme.participants, HasSigned(check, scheme, message, items, p.signer),
                Verifies(check, message, p), answer, complete)
  }

  /** What the collector answers to a submission. */
  function CollectorAnswer(check: SignatureCheck, scheme: ThresholdScheme, message: Bytes,
                           sigs: seq<PartialSignature>, p: PartialSignature): Result<bool>
  {
    Verdict(Collect(check, scheme, message, sigs, p))
  }

  /** What the aggregator answers. */
  function AggregatorAnswer(check: SignatureCheck, scheme: ThresholdScheme, message: Bytes,
                            table: map<PublicKey, PartialSignature>, p: PartialSignature): Result<bool>
  {
    Verdict(Aggregate(check, scheme, message, table, p.signer, p.signature))
  }

  lemma {:induction false} RunAppends(check: SignatureCheck, scheme: ThresholdScheme, message: Bytes,
                                      items: seq<PartialSignature>, p: PartialSignature)
    ensures CollectRun(check, scheme, message, items + [p])
         == ListAfter(check, scheme, message, CollectRun(check, scheme, message, items), p)
    ensures AggregateRun(check, scheme, message, items + [p])
         == TableAfter(check, scheme, message, AggregateRun(check, scheme, message, items), p.signer, p.signature)
  {
    assert (items + [p])[..|items + [p]| - 1] == items;
  }

  /** After every run of submissions the collector accepts exactly a participant who has not signed yet and whose
      signature verifies, and says whether the collection then passes `verify`; each refusal has its own error. */
  lemma {:induction false} CollectorAnswers(check: SignatureCheck, scheme: ThresholdScheme, message: Bytes,
                                            items: seq<PartialSignature>, p: PartialSignature)
    ensures Answers(check, scheme, message, items, p,
                    CollectorAnswer(check, scheme, message, CollectRun(check, scheme, message, items), p),
                    Passes(check, scheme, message, CollectRun(check, scheme, message, items + [p])))
  {
    SignersExact(check, scheme, message, items, p.signer);
    AnswerOf(check, scheme, message, CollectRun(check, scheme, message, items), p);
    CompletedBy(check, scheme, message, items, p);
  }

  lemma {:induction false} AnswerOf(check: SignatureCheck, scheme: ThresholdScheme, message: Bytes,
                                    sigs: seq<PartialSignature>, p: PartialSignature)
    ensures RightAnswer(p.signer in scheme.participants, p.signer in SignerSet(sigs), Verifies(check, message, p),
                        CollectorAnswer(check, scheme, message, sigs, p), IsMet(scheme, |sigs| + 1))
  {
  }

  /** With an accepted submission the collection passes `verify` exactly if its count is met. */
  lemma {:induction false} CompletedBy(check: SignatureCheck, scheme: ThresholdScheme, message: Bytes,
                                       items: seq<PartialSignature>, p: PartialSignature)
    ensures var sigs := CollectRun(check, scheme, message, items);
            Collect(check, scheme, message, sigs, p).Accepted? ==>
              (IsMet(scheme, |sigs| + 1)
               <==> Passes(check, scheme, message, CollectRun(check, scheme, message, items + [p])))
  {
    RunAppends(check, scheme, message, items, p);
    CollectedSound(check, scheme, message, items + [p]);
  }

  /** The aggregator answers the same, and says whether `finalize` then succeeds. */
  lemma {:induction false} AggregatorAnswers(check: SignatureCheck, scheme: ThresholdScheme, message: Bytes,
                                             items: seq<PartialSignature>, p: PartialSignature)
    ensures Answers(check, scheme, message, items, p,
                    AggregatorAnswer(check, scheme, message, AggregateRun(check, scheme, message, items), p),
                    IsMet(scheme, |AggregateRun(check, scheme, message, items + [p])|))
  {
    AggregatorRefinesCollector(check, scheme, message, items);
    AggregatorRefinesCollector(check, scheme, message, items + [p]);
    SameOutcome(check, scheme, message, CollectRun(check, scheme, message, items),
                AggregateRun(check, scheme, message, items), p);
    CollectorAnswers(check, scheme, message, items, p);
    CollectedSound(check, scheme, message, items + [p]);
  }

  /** A collection is complete exactly if threshold many participants submitted signatures that verify. */
  lemma {:induction false} CompleteExact(check: SignatureCheck, scheme: ThresholdScheme, message: Bytes,
                                         items: seq<PartialSignature>)
    ensures Passes(check, scheme, message, CollectRun(check, scheme, message, items))
       <==> |set k | k in scheme.participants && HasSigned(check, scheme, message, items, k)| >= scheme.threshold
  {
    var sigs := CollectRun(check, scheme, message, items);
    var signed := set k | k in scheme.participants && HasSigned(check, scheme, message, items, k);
    CollectedQuorum(check, scheme, message, items);
    forall k
      ensures k in signed <==> k in Vouching(scheme, sigs)
    {
      SignersExact(check, scheme, message, items, k);
    }
    assert signed == Vouching(scheme, sigs);
  }

  // ---------------------------------------------------------------- create_threshold_signature

  /** Creation fails with the refusal of the first item that is refused, or for want of signatures. */
  lemma {:induction false} CreateRefuses(check: SignatureCheck, scheme: ThresholdScheme, message: Bytes,
                                         items: seq<PartialSignature>)
    requires CreateThresholdSignature(check, scheme, message, items).Err?
    ensures var e := CreateThresholdSignature(check, scheme, message, items).error;
            if Sound(check, scheme, message, items) then e == InsufficientValidators && |items| < scheme.threshold
            else exists i :: 0 <= i < |items| && FirstRefused(check, scheme, message, items, i, e)
  {
    AddAllExact(check, scheme, message, items);
    if !Sound(check, scheme, message, items) {
      var i := RefusedAt(check, scheme, message, items);
    }
  }

  /** The first `i` items are sound and item `i` is refused after them with `e`. */
  ghost predicate FirstRefused(check: SignatureCheck, scheme: ThresholdScheme, message: Bytes,
                               items: seq<PartialSignature>, i: nat, e: VotingError)
    requires i < |items|
  {
    && Sound(check, scheme, message, items[..i])
    && CollectorAnswer(check, scheme, message, items[..i], items[i]) == Err(e)
  }

  lemma {:induction false} RefusedAt(check: SignatureCheck, scheme: ThresholdScheme, message: Bytes,
                                     items: seq<PartialSignature>) returns (i: nat)
    requires AddAll(check, scheme, message, items).Err?
    ensures i < |items| && FirstRefused(check, scheme, message, items, i, AddAll(check, scheme, message, items).error)
  {
    var n := |items| - 1;
    AddAllExact(check, scheme, message, items[..n]);
    if AddAll(check, scheme, message, items[..n]).Ok? {
      i := n;
    } else {
      i := RefusedAt(check, scheme, message, items[..n]);
      assert items[..n][..i] == items[..i] && items[..n][i] == items[i];
    }
  }
}
