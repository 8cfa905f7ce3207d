/**
 The check of Ethereum signatures of a transaction batch: every sender needs one matching signature,
 verified senders are cached, and the loop stops early once the cache is as large as the list of
 signatures.
 */
module BatchSignature {
  import opened Wrappers

  type Address = nat
  type Bytes = seq<int>

  /** A plain Ethereum signature, or one that a contract wallet is asked to accept. */
  datatype Signature = EthereumSignature(packed: Bytes) | EIP1271Signature(raw: Bytes)

  /** Key recovery from a raw message, and the on-chain check of a contract wallet. */
  datatype Checker = Checker(
    recover: (Bytes, Bytes) -> Option<Address>,
    accepts: (Address, Bytes, Bytes) -> bool)

  datatype TxAddError = Other | IncorrectEthSignature

  datatype Tx = Tx(backwardsCompatible: bool, payload: Bytes)

  predicate VerifyEthereumSignature(s: Signature, message: Bytes, sender: Address, checker: Checker) {
    match s
    case EthereumSignature(packed) => checker.recover(packed, message) == Some(sender)
    case EIP1271Signature(raw) => checker.accepts(sender, message, raw)
  }

  /** A signature counts for a sender on the new message, or on the old one where it exists. */
  predicate Matches(s: Signature, message: Bytes, oldMessage: Option<Bytes>, sender: Address, checker: Checker) {
    || VerifyEthereumSignature(s, message, sender, checker)
    || (oldMessage.Some? && VerifyEthereumSignature(s, oldMessage.value, sender, checker))
  }

  predicate HasSignature(sigs: seq<Signature>, message: Bytes, oldMessage: Option<Bytes>, sender: Address,
                         checker: Checker) {
    exists i :: 0 <= i < |sigs| && Matches(sigs[i], message, oldMessage, sender, checker)
  }

  predicate AllSigned(senders: seq<Address>, sigs: seq<Signature>, message: Bytes, oldMessage: Option<Bytes>,
                      checker: Checker) {
    forall k :: 0 <= k < |senders| ==> HasSignature(sigs, message, oldMessage, senders[k], checker)
  }

  function Distinct(senders: seq<Address>): set<Address> {
    set s | s in senders
  }

  function OldMessage(txs: seq<Tx>, oldBatchMessage: seq<Tx> -> Bytes): Option<Bytes> {
    if forall k :: 0 <= k < |txs| ==> txs[k].backwardsCompatible then Some(oldBatchMessage(txs)) else None
  }

  /** The signature is the sender's on this message: recovered from it, or accepted by the sender's contract. */
  ghost predicate SignedBy(s: Signature, m: Bytes, sender: Address, checker: Checker) {
    if s.EthereumSignature? then checker.recover(s.packed, m) == Some(sender) else checker.accepts(sender, m, s.raw)
  }

  /** It counts on the batch's message, and on the old one if and only if every transaction is backwards compatible. */
  ghost predicate Counts(s: Signature, txs: seq<Tx>, message: Bytes, oldBatchMessage: seq<Tx> -> Bytes, sender: Address,
                         checker: Checker) {
    || SignedBy(s, message, sender, checker)
    || ((forall k :: 0 <= k < |txs| ==> txs[k].backwardsCompatible) && SignedBy(s, oldBatchMessage(txs), sender, checker))
  }

  ghost predicate SomeCounts(sigs: seq<Signature>, txs: seq<Tx>, message: Bytes, oldBatchMessage: seq<Tx> -> Bytes,
                             sender: Address, checker: Checker) {
    exists i :: 0 <= i < |sigs| && Counts(sigs[i], txs, message, oldBatchMessage, sender, checker)
  }

  ghost predicate EverySenderSigned(txs: seq<Tx>, senders: seq<Address>, sigs: seq<Signature>, message: Bytes,
                                    oldBatchMessage: seq<Tx> -> Bytes, checker: Checker) {
    forall k :: 0 <= k < |senders| ==> SomeCounts(sigs, txs, message, oldBatchMessage, senders[k], checker)
  }

  lemma MatchCounts(s: Signature, txs: seq<Tx>, message: Bytes, oldBatchMessage: seq<Tx> -> Bytes, sender: Address,
                    checker: Checker)
    ensures Matches(s, message, OldMessage(txs, oldBatchMessage), sender, checker)
      <==> Counts(s, txs, message, oldBatchMessage, sender, checker)
  {
  }

  lemma SenderSigned(txs: seq<Tx>, sender: Address, sigs: seq<Signature>, message: Bytes,
                     oldBatchMessage: seq<Tx> -> Bytes, checker: Checker)
    ensures HasSignature(sigs, message, OldMessage(txs, oldBatchMessage), sender, checker)
      <==> SomeCounts(sigs, txs, message, oldBatchMessage, sender, checker)
  {
    forall i | 0 <= i < |sigs|
      ensures Matches(sigs[i], message, OldMessage(txs, oldBatchMessage), sender, checker)
        <==> Counts(sigs[i], txs, message, oldBatchMessage, sender, checker)
    {
      MatchCounts(sigs[i], txs, message, oldBatchMessage, sender, checker);
    }
  }

  lemma SignedMeaning(txs: seq<Tx>, senders: seq<Address>, sigs: seq<Signature>, message: Bytes,
                      oldBatchMessage: seq<Tx> -> Bytes, checker: Checker)
    ensures AllSigned(senders, sigs, message, OldMessage(txs, oldBatchMessage), checker)
      <==> EverySenderSigned(txs, senders, sigs, message, oldBatchMessage, checker)
  {
    forall k | 0 <= k < |senders|
      ensures HasSignature(sigs, message, OldMessage(txs, oldBatchMessage), senders[k], checker)
        <==> SomeCounts(sigs, txs, message, oldBatchMessage, senders[k], checker)
    {
      SenderSigned(txs, senders[k], sigs, message, oldBatchMessage, checker);
    }
  }

  lemma DistinctAppend(senders: seq<Address>, k: nat)
    requires k < |senders|
    ensures Distinct(senders[..k + 1]) == Distinct(senders[..k]) + {senders[k]}
    ensures |Distinct(senders[..k + 1])|
      == |Distinct(senders[..k])| + if senders[k] in Distinct(senders[..k]) then 0 else 1
  {
    assert senders[..k + 1] == senders[..k] + [senders[k]];
    if senders[k] in Distinct(senders[..k]) {
      assert Distinct(senders[..k + 1]) == Distinct(senders[..k]);
    }
  }

  lemma {:induction false} DistinctGrows(senders: seq<Address>, k: nat)
    requires k <= |senders|
    ensures |Distinct(senders[..k])| <= |Distinct(senders)|
    decreases |senders| - k
  {
    if k == |senders| {
      assert senders[..k] == senders;
    } else {
      DistinctAppend(senders, k);
      DistinctGrows(senders, k + 1);
    }
  }

  lemma SeenIsSigned(senders: seq<Address>, k: nat, sigs: seq<Signature>, message: Bytes, oldMessage: Option<Bytes>,
                     checker: Checker)
    requires k < |senders| && AllSigned(senders[..k], sigs, message, oldMessage, checker)
    requires senders[k] in Distinct(senders[..k])
    ensures HasSignature(sigs, message, oldMessage, senders[k], checker)
  {
    var j :| 0 <= j < k && senders[..k][j] == senders[k];
  }

  lemma SignedAppend(senders: seq<Address>, k: nat, sigs: seq<Signature>, message: Bytes, oldMessage: Option<Bytes>,
                     checker: Checker)
    requires k < |senders| && AllSigned(senders[..k], sigs, message, oldMessage, checker)
    requires HasSignature(sigs, message, oldMessage, senders[k], checker)
    ensures AllSigned(senders[..k + 1], sigs, message, oldMessage, checker)
  {
    var next := senders[..k + 1];
    forall j | 0 <= j < |next|
      ensures HasSignature(sigs, message, oldMessage, next[j], checker)
    {
      if j < k {
        assert next[j] == senders[..k][j];
      }
    }
  }

  /** Looks for a signature of the sender, on the new message first and then on the old one. */
  method FindSignature(sigs: seq<Signature>, message: Bytes, oldMessage: Option<Bytes>, sender: Address,
                       checker: Checker)
    returns (senderCorrect: bool)
    ensures senderCorrect <==> HasSignature(sigs, message, oldMessage, sender, checker)
  {
    senderCorrect := false;
    for i := 0 to |sigs|
      invariant !senderCorrect && forall j :: 0 <= j < i ==> !Matches(sigs[j], message, oldMessage, sender, checker)
    {
      var signatureCorrect := VerifyEthereumSignature(sigs[i], message, sender, checker);
      if !signatureCorrect {
        if oldMessage.Some? {
          signatureCorrect := VerifyEthereumSignature(sigs[i], oldMessage.value, sender, checker);
        }
      }
      if signatureCorrect {
        senderCorrect := true;
        break;
      }
    }
  }

  /**
   The batch passes exactly when every sender is signed for and there are at least as many
   signatures as distinct senders; where no signature serves two senders, when every sender is signed for.
   */
  method VerifyBatch(txs: seq<Tx>, senders: seq<Address>, sigs: seq<Signature>, message: Bytes,
                     oldBatchMessage: seq<Tx> -> Bytes, checker: Checker)
    returns (r: Result<(), TxAddError>)
    ensures r.Ok? <==>
      EverySenderSigned(txs, senders, sigs, message, oldBatchMessage, checker) && |Distinct(senders)| <= |sigs|
    ensures OneSenderPerSignature(senders, sigs, message, OldMessage(txs, oldBatchMessage), checker) ==>
      (r.Ok? <==> EverySenderSigned(txs, senders, sigs, message, oldBatchMessage, checker))
    ensures r.Err? ==> r.error == IncorrectEthSignature
  {
    var oldMessage := OldMessage(txs, oldBatchMessage);
    SignedMeansEnough(senders, sigs, message, oldMessage, checker);
    SignedMeaning(txs, senders, sigs, message, oldBatchMessage, checker);
    var signers: set<Address> := {};
    for k := 0 to |senders|
      invariant signers == Distinct(senders[..k]) && |signers| <= |sigs|
      invariant AllSigned(senders[..k], sigs, message, oldMessage, checker)
    {
      var sender := senders[k];
      DistinctAppend(senders, k);
      if sender in signers {
        SeenIsSigned(senders, k, sigs, message, oldMessage, checker);
        SignedAppend(senders, k, sigs, message, oldMessage, checker);
        continue;
      }
      if |signers| == |sigs| {
        DistinctGrows(senders, k + 1);
        return Err(IncorrectEthSignature);
      }
      var senderCorrect := FindSignature(sigs, message, oldMessage, sender, checker);
      if !senderCorrect {
        return Err(IncorrectEthSignature);
      }
      SignedAppend(senders, k, sigs, message, oldMessage, checker);
      signers := signers + {sender};
    }
    assert senders[..|senders|] == senders;
    return Ok(());
  }

  ghost predicate OneSenderPerSignature(senders: seq<Address>, sigs: seq<Signature>, message: Bytes,
                                        oldMessage: Option<Bytes>, checker: Checker) {
    forall i, a, b :: 0 <= i < |sigs| && a in senders && b in senders
      && Matches(sigs[i], message, oldMessage, a, checker) && Matches(sigs[i], message, oldMessage, b, checker)
      ==> a == b
  }

  /** Distinct values that own distinct places in a list are at most as many as the places. */
  lemma {:induction false} Pigeonhole(s: set<Address>, n: nat, place: map<Address, nat>)
    requires s == place.Keys
    requires forall a :: a in s ==> place[a] < n
    requires forall a, b :: a in s && b in s && place[a] == place[b] ==> a == b
    ensures |s| <= n
  {
    if n == 0 {
      assert s == {};
    } else if a :| a in s && place[a] == n - 1 {
      var rest := map b | b in place && b != a :: place[b];
      assert rest.Keys == s - {a};
      Pigeonhole(s - {a}, n - 1, rest);
    } else {
      Pigeonhole(s, n - 1, place);
    }
  }

  /** Where no signature serves two senders, the early exit never rejects a fully signed batch. */
  lemma EnoughSignatures(senders: seq<Address>, sigs: seq<Signature>, message: Bytes,
                         oldMessage: Option<Bytes>, checker: Checker)
    requires AllSigned(senders, sigs, message, oldMessage, checker)
    requires OneSenderPerSignature(senders, sigs, message, oldMessage, checker)
    ensures |Distinct(senders)| <= |sigs|
  {
    var place: map<Address, nat> := map a | a in Distinct(senders) :: PlaceOf(a, sigs, message, oldMessage, checker);
    forall a | a in Distinct(senders)
      ensures HasSignature(sigs, message, oldMessage, a, checker)
    {
      var k :| 0 <= k < |senders| && senders[k] == a;
    }
    Pigeonhole(Distinct(senders), |sigs|, place);
  }

  lemma SignedMeansEnough(senders: seq<Address>, sigs: seq<Signature>, message: Bytes,
                          oldMessage: Option<Bytes>, checker: Checker)
    ensures (&& OneSenderPerSignature(senders, sigs, message, oldMessage, checker)
             && AllSigned(senders, sigs, message, oldMessage, checker)) ==> |Distinct(senders)| <= |sigs|
  {
    if OneSenderPerSignature(senders, sigs, message, oldMessage, checker)
       && AllSigned(senders, sigs, message, oldMessage, checker) {
      EnoughSignatures(senders, sigs, message, oldMessage, checker);
    }
  }

  ghost function PlaceOf(a: Address, sigs: seq<Signature>, message: Bytes, oldMessage: Option<Bytes>,
                         checker: Checker): (i: nat)
    ensures HasSignature(sigs, message, oldMessage, a, checker)
      ==> i < |sigs| && Matches(sigs[i], message, oldMessage, a, checker)
  {
    if HasSignature(sigs, message, oldMessage, a, checker) then
      var i :| 0 <= i < |sigs| && Matches(sigs[i], message, oldMessage, a, checker); i
    else 0
  }

  /** Plain signatures recover one address, so they serve one sender when there is no old message. */
  lemma PlainSignaturesServeOne(senders: seq<Address>, sigs: seq<Signature>, message: Bytes, checker: Checker)
    requires forall i :: 0 <= i < |sigs| ==> sigs[i].EthereumSignature?
    ensures OneSenderPerSignature(senders, sigs, message, None, checker)
  {
  }

  /**
   A contract signature that two wallets accept signs for both senders, yet the batch is rejected:
   one signature cannot cover two distinct senders.
   */
  lemma SharedContractSignature(checker: Checker, raw: Bytes, message: Bytes)
    requires checker.accepts(1, message, raw) && checker.accepts(2, message, raw)
    ensures AllSigned([1, 2], [EIP1271Signature(raw)], message, None, checker)
    ensures |Distinct([1, 2])| > |[EIP1271Signature(raw)]|
  {
    var sigs := [EIP1271Signature(raw)];
    assert Matches(sigs[0], message, None, 1, checker) && Matches(sigs[0], message, None, 2, checker);
    assert Distinct([1, 2]) == {1, 2};
  }
}
