/**
The gate before execution (crates/miden-multisig-client/src/client/proposals.rs and
offline.rs; account.rs `ensure_threshold_met`): collect the approvals, then compare
their number with what the account requires of the transaction. A document that is
ready by its own count is held to the same gate.
*/
module Execution {
  import opened Wrappers
  import opened Ascii
  import opened Words
  import opened Signers
  import opened Signatures
  import opened Approvals
  import T = ProcedureThresholds
  import E = Export

  /** Whether `n` approvals meet every procedure the transaction calls, each its
      override else the default. */
  ghost predicate Meets(account: T.Account, tx: T.Transaction, n: nat)
    requires T.DefaultThreshold(account).Some?
  {
    var fallback := T.DefaultThreshold(account).value;
    if tx.AccountDefault? then n >= fallback
    else forall p | p in T.Calls(tx) :: n >= T.Effective(account, p, fallback)
  }

  /** When the approvals let the transaction execute. */
  ghost predicate Opens(approvers: seq<Signer>, inputs: seq<Input>, build: Builder, account: T.Account, tx: T.Transaction) {
    && AllUsable(approvers, inputs, build)
    && account.pinned
    && T.DefaultThreshold(account).Some?
    && Meets(account, tx, |Approving(approvers, inputs)|)
  }

  datatype GateError =
    | BadApproval(error: AdviceError)
    | UnsupportedContract
    | NoThreshold
    | NotReady(required: nat, collected: nat)

  /** The gate yields one entry per approver that approved under its stored scheme. */
  method Gate(approvers: seq<Signer>, inputs: seq<Input>, build: Builder, account: T.Account, tx: T.Transaction)
    returns (r: Result<seq<Entry>, GateError>)
    ensures r.Ok? <==> Opens(approvers, inputs, build, account, tx)
    ensures r.Ok? ==> Entries(approvers, inputs, build, |inputs|, r.value) && |r.value| == |Approving(approvers, inputs)|
    ensures r.Err? ==>
      match r.error
      case BadApproval(error) => FirstUnusable(approvers, inputs, build, error)
      case UnsupportedContract => AllUsable(approvers, inputs, build) && !account.pinned
      case NoThreshold => AllUsable(approvers, inputs, build) && account.pinned && T.DefaultThreshold(account).None?
      case NotReady(required, collected) =>
        AllUsable(approvers, inputs, build) && account.pinned &&
        T.Threshold(account, tx) == Some(required) && collected == |Approving(approvers, inputs)| < required
  {
    hide AllUsable, FirstUnusable, Approving, ApprovedBy, Meets, T.Threshold;
    var advice := CollectSignatureAdvice(approvers, inputs, build);
    if advice.Err? {
      return Err(BadApproval(advice.error));
    }
    OneEach(approvers, inputs, |inputs|);
    ApprovedMeans(approvers, inputs);
    if !account.pinned {
      return Err(UnsupportedContract);
    }
    ThresholdMeans(account, tx, |advice.value|);
    var required := T.Threshold(account, tx);
    if required.None? {
      return Err(NoThreshold);
    }
    if |advice.value| < required.value {
      return Err(NotReady(required.value, |advice.value|));
    }
    return Ok(advice.value);
  }

  lemma ThresholdMeans(account: T.Account, tx: T.Transaction, n: nat)
    ensures T.Threshold(account, tx).Some? <==> T.DefaultThreshold(account).Some?
    ensures T.DefaultThreshold(account).Some? ==> (Meets(account, tx, n) <==> n >= T.Threshold(account, tx).value)
  {
    if T.DefaultThreshold(account).Some? {
      T.GateMeetsEveryProcedure(account, tx, n);
    }
    hide T.Effective, T.Highest, T.Requirements;
  }

  // ----- valid documents -----

  /** Whether a signature of a document counts: its signer has the `0x` prefix and is
      an approver, under the scheme the account stores for it. */
  predicate Counts(approvers: seq<Signer>, s: Signature)
    requires IsWordHex(s.signer)
  {
    "0x" <= s.signer && Find(approvers, WordOf(s.signer)) == Some(Signer(WordOf(s.signer), s.scheme))
  }

  lemma CountsIff(approvers: seq<Signer>, s: Signature)
    requires IsWordHex(s.signer)
    ensures Counts(approvers, s) <==> ApproverOf(approvers, s).Some?
    ensures Counts(approvers, s) ==> ApproverOf(approvers, s) == Some(WordOf(s.signer))
  {
    hide WordHex, LowerAll, ParseWord, ApproverOf, IsWordHex, WordOf, Find, StripPrefix;
    var w := WordOf(s.signer);
    WordHexOfParse(s.signer);
    ApproverMeans(approvers, s, w);
    if ApproverOf(approvers, s).Some? {
      var c := ApproverOf(approvers, s).value;
      ValidatedSignersDecode(approvers, s);
      ApproverMeans(approvers, s, c);
      EnsuredIsItself(s.signer);
      WordHexInjective(w, c);
    } else if "0x" <= s.signer {
      EnsuredIsItself(s.signer);
    }
  }

  lemma EnsuredIsItself(s: string)
    requires "0x" <= s
    ensures EnsurePrefix(s) == s
  {
  }

  ghost predicate AllWordHexes(signatures: seq<Signature>) {
    forall i | 0 <= i < |signatures| :: IsWordHex(signatures[i].signer)
  }

  /** The signatures that count. */
  ghost function Counting(approvers: seq<Signer>, signatures: seq<Signature>, n: nat): set<nat>
    requires AllWordHexes(signatures) && n <= |signatures|
  {
    set i | 0 <= i < n && Counts(approvers, signatures[i])
  }

  /** In a valid document no two signatures count for one approver. */
  lemma CountingIsFirst(approvers: seq<Signer>, parses: Parser, signatures: seq<Signature>, i: nat)
    requires SignaturesOk(parses, signatures) && i < |signatures|
    ensures IsFirst(approvers, signatures, i) <==> Counts(approvers, signatures[i])
  {
    hide IsWordHex, LowerAll, ApproverOf, Counts;
    CountsIff(approvers, signatures[i]);
    if ApproverOf(approvers, signatures[i]).Some? {
      forall j | 0 <= j < i
        ensures ApproverOf(approvers, signatures[j]) != ApproverOf(approvers, signatures[i])
      {
        if ApproverOf(approvers, signatures[j]).Some? {
          KeyIsApprover(approvers, signatures[j], signatures[i]);
        }
      }
    }
  }

  lemma {:induction false} ChosenAreCounting(approvers: seq<Signer>, parses: Parser, signatures: seq<Signature>, n: nat)
    requires SignaturesOk(parses, signatures) && AllWordHexes(signatures) && n <= |signatures|
    ensures |Chosen(approvers, signatures, n)| == |Counting(approvers, signatures, n)|
    decreases n
  {
    hide IsWordHex, SignaturesOk, Counts, IsFirst;
    if n > 0 {
      ChosenAreCounting(approvers, parses, signatures, n - 1);
      CountingIsFirst(approvers, parses, signatures, n - 1);
      var before := Counting(approvers, signatures, n - 1);
      assert Counting(approvers, signatures, n) == before + if Counts(approvers, signatures[n - 1]) then {n - 1} else {};
    }
  }

  lemma ValidIsWordHexes(parses: Parser, signatures: seq<Signature>)
    requires SignaturesOk(parses, signatures)
    ensures AllWordHexes(signatures)
  {
    hide IsWordHex;
  }

  /** The gate for a valid document, said of its signatures alone: those that count
      must build, and their number must meet the account's threshold. */
  lemma DocumentOpensExactlyWhen(approvers: seq<Signer>, parses: Parser, signatures: seq<Signature>, build: Builder,
                                 account: T.Account, tx: T.Transaction)
    requires SignaturesOk(parses, signatures)
    ensures AllWordHexes(signatures)
    ensures Opens(approvers, signatures, build, account, tx) <==>
            && (forall i | i in Counting(approvers, signatures, |signatures|) ::
                  build(WordOf(signatures[i].signer), signatures[i]).Ok?)
            && account.pinned
            && T.DefaultThreshold(account).Some?
            && Meets(account, tx, |Counting(approvers, signatures, |signatures|)|)
  {
    hide IsWordHex, SignaturesOk, Meets, Approving, ApprovedBy, Usable, Counts, WordOf, ApproverOf;
    ValidIsWordHexes(parses, signatures);
    ChosenAreCounting(approvers, parses, signatures, |signatures|);
    OneEach(approvers, signatures, |signatures|);
    ApprovedMeans(approvers, signatures);
    forall i: nat | i < |signatures|
      ensures IsFirst(approvers, signatures, i) <==> Counts(approvers, signatures[i])
      ensures IsFirst(approvers, signatures, i) ==>
                (Usable(approvers, signatures[i], build) <==> build(WordOf(signatures[i].signer), signatures[i]).Ok?)
    {
      CountingIsFirst(approvers, parses, signatures, i);
      if IsFirst(approvers, signatures, i) {
        CountedIsUsable(approvers, signatures[i], build);
      }
    }
  }

  lemma CountedIsUsable(approvers: seq<Signer>, s: Signature, build: Builder)
    requires IsWordHex(s.signer) && Counts(approvers, s)
    ensures ApproverOf(approvers, s).Some? && (Usable(approvers, s, build) <==> build(WordOf(s.signer), s).Ok?)
  {
    CountsIff(approvers, s);
    hide IsWordHex, WordOf, ApproverOf;
  }

  /** Where every signature counts and builds and the document asks for what the
      account does, the document is ready exactly when it may execute. */
  lemma ReadyMeansExecutable(approvers: seq<Signer>, parses: Parser, d: E.Doc, build: Builder,
                             account: T.Account, tx: T.Transaction)
    requires SignaturesOk(parses, d.signatures) && AllWordHexes(d.signatures)
    requires forall i | 0 <= i < |d.signatures| ::
               Counts(approvers, d.signatures[i]) && build(WordOf(d.signatures[i].signer), d.signatures[i]).Ok?
    requires account.pinned && T.Threshold(account, tx) == Some(d.header.required)
    ensures E.StatusOf(d) == E.Ready <==> Opens(approvers, d.signatures, build, account, tx)
  {
    hide IsWordHex, SignaturesOk, Meets, Counts, WordOf, Opens;
    DocumentOpensExactlyWhen(approvers, parses, d.signatures, build, account, tx);
    ThresholdMeans(account, tx, |d.signatures|);
    AllCount(approvers, d.signatures, |d.signatures|);
  }

  lemma {:induction false} AllCount(approvers: seq<Signer>, signatures: seq<Signature>, n: nat)
    requires AllWordHexes(signatures) && n <= |signatures|
    requires forall i | 0 <= i < n :: Counts(approvers, signatures[i])
    ensures |Counting(approvers, signatures, n)| == n
    decreases n
  {
    hide IsWordHex, Counts;
    if n > 0 {
      AllCount(approvers, signatures, n - 1);
      assert Counting(approvers, signatures, n) == Counting(approvers, signatures, n - 1) + {n - 1};
    }
  }

  /** Without that a ready document may be refused: for every approver, spelling the
      signer without its prefix keeps the document valid and ready and its signature
      from counting, so it opens nothing that needs an approval. */
  lemma ReadyMayBeRefused(approvers: seq<Signer>, parses: Parser, d: E.Doc, c: Word, build: Builder,
                          account: T.Account, tx: T.Transaction)
    requires |d.signatures| == d.header.required == 1 && d.signatures[0].signer == WordHex(c)[2..] && parses(d.signatures[0])
    requires T.Threshold(account, tx).Some? && T.Threshold(account, tx).value > 0
    ensures E.StatusOf(d) == E.Ready && SignaturesOk(parses, d.signatures) && WordOf(d.signatures[0].signer) == c
    ensures !Opens(approvers, d.signatures, build, account, tx)
  {
    hide WordHex, WordOf, IsWordHex, Meets, Opens, T.Threshold;
    E.BareReads(c);
    DocumentOpensExactlyWhen(approvers, parses, d.signatures, build, account, tx);
    ThresholdMeans(account, tx, 0);
    assert Counting(approvers, d.signatures, 1) == {};
  }
}
