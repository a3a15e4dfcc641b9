/**
Collected signatures as documents and payloads carry them (validation in
crates/miden-multisig-client/src/export.rs and proposal.rs): each must be well
formed, and no signer may appear twice up to case.
*/
module Signatures {
  import opened Wrappers
  import opened Ascii
  import opened Words
  import opened Signers

  datatype Signature = Signature(signer: string, bytes: string, scheme: Scheme, publicKey: Option<string>, eip712: bool)

  /** Whether the signature and key strings parse under the signature's scheme. */
  type Parser = Signature -> bool

  predicate SignatureOk(parses: Parser, s: Signature) {
    IsWordHex(s.signer) && parses(s)
  }

  /** Case-folded signer strings are pairwise distinct. */
  predicate FoldedDistinct(signatures: seq<Signature>) {
    forall i, j | 0 <= i < j < |signatures| :: LowerAll(signatures[i].signer) != LowerAll(signatures[j].signer)
  }

  predicate SignaturesOk(parses: Parser, signatures: seq<Signature>) {
    (forall i | 0 <= i < |signatures| :: SignatureOk(parses, signatures[i])) && FoldedDistinct(signatures)
  }

  datatype SignatureError = BadSigner(index: nat) | BadSignature(index: nat) | DuplicateSigner(index: nat)

  /** `validate_signatures`: the error is at the first signature that is malformed
      or repeats an earlier signer. */
  method ValidateSignatures(parses: Parser, signatures: seq<Signature>) returns (r: Option<SignatureError>)
    ensures r.None? <==> SignaturesOk(parses, signatures)
    ensures r.Some? ==>
      match r.value
      case BadSigner(i) => i < |signatures| && SignaturesOk(parses, signatures[..i]) && !IsWordHex(signatures[i].signer)
      case BadSignature(i) => i < |signatures| && SignaturesOk(parses, signatures[..i]) &&
                              IsWordHex(signatures[i].signer) && !parses(signatures[i])
      case DuplicateSigner(i) => i < |signatures| && SignaturesOk(parses, signatures[..i]) && SignatureOk(parses, signatures[i]) &&
                                 exists j | 0 <= j < i :: LowerAll(signatures[j].signer) == LowerAll(signatures[i].signer)
  {
    hide IsWordHex, LowerAll, SignaturesOk, Folded;
    var seen: set<string> := {};
    NothingIsOk(parses, signatures);
    for i := 0 to |signatures|
      invariant SignaturesOk(parses, signatures[..i])
      invariant seen == Folded(signatures, i)
    {
      OkStep(parses, signatures, i);
      FoldedStep(signatures, i);
      var word := WordFromHex(signatures[i].signer);
      if word.Err? {
        return Some(BadSigner(i));
      }
      if !parses(signatures[i]) {
        return Some(BadSignature(i));
      }
      if LowerAll(signatures[i].signer) in seen {
        return Some(DuplicateSigner(i));
      }
      seen := seen + {LowerAll(signatures[i].signer)};
    }
    assert signatures[..|signatures|] == signatures;
    return None;
  }

  lemma NothingIsOk(parses: Parser, signatures: seq<Signature>)
    ensures SignaturesOk(parses, signatures[..0]) && Folded(signatures, 0) == {}
  {
  }

  ghost function Folded(signatures: seq<Signature>, n: nat): set<string>
    requires n <= |signatures|
  {
    set j | 0 <= j < n :: LowerAll(signatures[j].signer)
  }

  lemma FoldedStep(signatures: seq<Signature>, n: nat)
    requires n < |signatures|
    ensures Folded(signatures, n + 1) == Folded(signatures, n) + {LowerAll(signatures[n].signer)}
    ensures LowerAll(signatures[n].signer) in Folded(signatures, n) <==>
            exists j | 0 <= j < n :: LowerAll(signatures[j].signer) == LowerAll(signatures[n].signer)
  {
    hide LowerAll;
  }

  lemma OkStep(parses: Parser, signatures: seq<Signature>, n: nat)
    requires n < |signatures| && SignaturesOk(parses, signatures[..n])
    ensures SignaturesOk(parses, signatures[..n + 1]) <==>
            SignatureOk(parses, signatures[n]) &&
            forall j | 0 <= j < n :: LowerAll(signatures[j].signer) != LowerAll(signatures[n].signer)
    ensures !SignaturesOk(parses, signatures[..n + 1]) ==> !SignaturesOk(parses, signatures)
  {
    hide IsWordHex, LowerAll;
    var before, after := signatures[..n], signatures[..n + 1];
    assert forall j | 0 <= j < n :: after[j] == before[j] == signatures[j];
    assert after[n] == signatures[n];
    if SignaturesOk(parses, after) {
      forall j | 0 <= j < n
        ensures LowerAll(signatures[j].signer) != LowerAll(signatures[n].signer)
      {
        assert LowerAll(after[j].signer) != LowerAll(after[n].signer);
      }
    }
  }
}
