/**
Proposal payloads (crates/miden-multisig-client/src/payload.rs, proposal.rs).

A proposer builds a payload with metadata setters; a cosigner parses the metadata
back into the transaction it describes. Account ids are opaque with a hex codec of
their own; words, amounts, note types and procedures travel as strings.
*/
module Payload {
  import opened Wrappers
  import opened Decimal
  import opened Words
  import opened Signers
  import opened Signatures
  import opened Ascii
  import Procedures

  const U32_BOUND: nat := 0x1_0000_0000

  type U32 = x: int | 0 <= x < U32_BOUND
  type Height = x: int | 0 < x < U32_BOUND witness 1

  type AccountId = string

  /** `AccountId::to_hex` and `from_hex`. */
  datatype AccountIds = AccountIds(show: AccountId -> string, read: string -> Option<AccountId>) {
    ghost predicate Codec() {
      forall id :: read(show(id)) == Some(id)
    }
  }

  // ----- note types -----

  datatype NoteType = Public | Private

  function NoteTypeName(t: NoteType): string {
    if t.Public? then "public" else "private"
  }

  function NoteTypeOf(s: string): Option<NoteType> {
    if s == "public" then Some(Public) else if s == "private" then Some(Private) else None
  }

  // ----- proposal types -----

  datatype Kind =
    | ConsumeNotes | P2id | SwitchGuardian | UpdateProcedureThreshold | AddSigner | RemoveSigner | ChangeThreshold
    | Unknown

  /** The wire label of a modelled type. */
  function Label(k: Kind): string
    requires !k.Unknown?
  {
    match k
    case ConsumeNotes => "consume_notes"
    case P2id => "p2id"
    case SwitchGuardian => "switch_guardian"
    case UpdateProcedureThreshold => "update_procedure_threshold"
    case AddSigner => "add_signer"
    case RemoveSigner => "remove_signer"
    case ChangeThreshold => "change_threshold"
  }

  function KindOf(name: string): Kind {
    if name == "consume_notes" then ConsumeNotes
    else if name == "p2id" then P2id
    else if name == "switch_guardian" then SwitchGuardian
    else if name == "update_procedure_threshold" then UpdateProcedureThreshold
    else if name == "add_signer" then AddSigner
    else if name == "remove_signer" then RemoveSigner
    else if name == "change_threshold" then ChangeThreshold
    else Unknown
  }

  lemma KindOfLabel(k: Kind)
    requires !k.Unknown?
    ensures KindOf(Label(k)) == k && Label(k) != ""
  {
    assert |"consume_notes"| == 13 && |"p2id"| == 4 && |"switch_guardian"| == 15 && |"update_procedure_threshold"| == 26;
    assert |"add_signer"| == 10 && |"remove_signer"| == 13 && |"change_threshold"| == 16;
    assert "consume_notes"[0] == 'c' && "remove_signer"[0] == 'r';
  }

  // ----- metadata -----

  datatype Heights = Heights(reclaim: Option<Height>, timelock: Option<Height>)

  datatype Metadata = Metadata(
    proposalType: string,
    targetThreshold: Option<U64>,
    signerCommitments: seq<string>,
    signerSchemes: seq<string>,
    salt: Option<string>,
    recipient: Option<string>,
    faucet: Option<string>,
    amount: Option<string>,
    noteType: Option<string>,
    heights: Heights,
    requiredSignatures: Option<U64>,
    noteIds: seq<string>,
    notesVersion: Option<U32>,
    notes: seq<string>,
    guardianPubkey: Option<string>,
    guardianEndpoint: Option<string>,
    procedure: Option<string>,
    boundBlock: Option<U32>)

  const NO_METADATA: Metadata :=
    Metadata("", None, [], [], None, None, None, None, None, Heights(None, None), None, [], None, [], None, None, None, None)

  /** `summary` stands for the transaction summary. */
  datatype Payload = Payload(summary: string, signatures: seq<Signature>, metadata: Option<Metadata>)

  /** `ProposalPayload::new`. */
  function New(summary: string, block: U32): Payload {
    Payload(summary, [], Some(NO_METADATA.(boundBlock := Some(block))))
  }

  /** `replace_metadata`. */
  function Replace(p: Payload, m: Metadata): Payload {
    var block := if p.metadata.Some? then p.metadata.value.boundBlock else None;
    p.(metadata := Some(m.(boundBlock := block)))
  }

  /** A metadata setter and its arguments; each becomes one `with_*_metadata` call. */
  datatype Setter =
    | SetAddSigner(threshold: U64, commitments: seq<Word>, salt: string)
    | SetRemoveSigner(threshold: U64, commitments: seq<Word>, salt: string)
    | SetThreshold(threshold: U64, commitments: seq<Word>, salt: string)
    | SetPayment(recipient: AccountId, faucet: AccountId, amount: U64, salt: string, noteType: NoteType, heights: Heights)
    | SetNotes(noteIds: seq<Word>, salt: string)
    | SetNotesV2(noteIds: seq<Word>, notes: seq<string>, salt: string)
    | SetGuardian(pubkey: Word, endpoint: string, salt: string)
    | SetProcedureThreshold(procedure: Procedures.ProcedureName, threshold: U64, salt: string)
    | SetCustom(name: string)

  function SignersMetadata(k: Kind, threshold: U64, commitments: seq<Word>, salt: string): Metadata
    requires !k.Unknown?
  {
    NO_METADATA.(proposalType := Label(k), targetThreshold := Some(threshold),
                 signerCommitments := Hexes(commitments), salt := Some(salt))
  }

  /** The metadata a setter writes. */
  function Written(ids: AccountIds, s: Setter): Metadata {
    match s
    case SetAddSigner(threshold, commitments, salt) => SignersMetadata(AddSigner, threshold, commitments, salt)
    case SetRemoveSigner(threshold, commitments, salt) => SignersMetadata(RemoveSigner, threshold, commitments, salt)
    case SetThreshold(threshold, commitments, salt) => SignersMetadata(ChangeThreshold, threshold, commitments, salt)
    case SetPayment(recipient, faucet, amount, salt, noteType, heights) =>
      NO_METADATA.(proposalType := Label(P2id), recipient := Some(ids.show(recipient)), faucet := Some(ids.show(faucet)),
                   amount := Some(Digits(amount)),
                   noteType := if noteType.Public? then None else Some(NoteTypeName(noteType)),
                   heights := heights, salt := Some(salt))
    case SetNotes(noteIds, salt) =>
      NO_METADATA.(proposalType := Label(ConsumeNotes), noteIds := Hexes(noteIds), salt := Some(salt))
    case SetNotesV2(noteIds, notes, salt) =>
      NO_METADATA.(proposalType := Label(ConsumeNotes), noteIds := Hexes(noteIds), notesVersion := Some(2), notes := notes,
                   salt := Some(salt))
    case SetGuardian(pubkey, endpoint, salt) =>
      NO_METADATA.(proposalType := Label(SwitchGuardian), guardianPubkey := Some(WordHex(pubkey)),
                   guardianEndpoint := Some(endpoint), salt := Some(salt))
    case SetProcedureThreshold(procedure, threshold, salt) =>
      NO_METADATA.(proposalType := Label(UpdateProcedureThreshold), targetThreshold := Some(threshold),
                   procedure := Some(Procedures.Name(procedure)), salt := Some(salt))
    case SetCustom(name) => NO_METADATA.(proposalType := name)
  }

  // ----- building -----

  datatype Step = Set(setter: Setter) | Schemes(schemes: seq<Scheme>) | Required(count: U64) | Sign(signature: Signature)

  function Do(ids: AccountIds, p: Payload, step: Step): Payload {
    var m := if p.metadata.Some? then p.metadata.value else NO_METADATA;
    match step
    case Set(setter) => Replace(p, Written(ids, setter))
    case Schemes(schemes) => p.(metadata := Some(m.(signerSchemes := Names(schemes))))
    case Required(count) => p.(metadata := Some(m.(requiredSignatures := Some(count))))
    case Sign(signature) => p.(signatures := p.signatures + [signature])
  }

  function Build(ids: AccountIds, p: Payload, steps: seq<Step>): Payload {
    if steps == [] then p else Do(ids, Build(ids, p, steps[..|steps| - 1]), steps[|steps| - 1])
  }

  /** No sequence of builder calls loses the block the summary binds. */
  lemma {:induction false} BoundBlockIsKept(ids: AccountIds, summary: string, block: U32, steps: seq<Step>)
    ensures
      var p := Build(ids, New(summary, block), steps);
      p.summary == summary && p.metadata.Some? && p.metadata.value.boundBlock == Some(block)
    decreases |steps|
  {
    hide Written;
    if steps != [] {
      BoundBlockIsKept(ids, summary, block, steps[..|steps| - 1]);
    }
  }

  // ----- reading -----

  datatype Transaction =
    | TransferTx(recipient: AccountId, faucet: AccountId, amount: U64, noteType: NoteType, heights: Heights)
    | ConsumeTx(noteIds: seq<Word>, version: Option<U32>, notes: seq<string>)
    | GuardianTx(endpoint: string, commitment: Word)
    | ProcedureTx(procedure: Procedures.ProcedureName, threshold: U32)
    | SignersTx(threshold: U32, commitments: seq<Word>)
    | CustomTx

  /** `as u32`. */
  function Truncate(x: U64): U32 {
    x % U32_BOUND
  }

  function ReadSigners(m: Metadata): Option<Transaction> {
    if m.targetThreshold.None? || !IsCommitmentList(m.signerCommitments) || m.signerCommitments == [] then None
    else Some(SignersTx(Truncate(m.targetThreshold.value), WordsOf(m.signerCommitments)))
  }

  function ReadNoteType(m: Metadata): Option<NoteType> {
    if m.noteType.None? then Some(Public) else NoteTypeOf(m.noteType.value)
  }

  function ReadPayment(ids: AccountIds, m: Metadata): Option<Transaction> {
    if m.recipient.None? || m.faucet.None? || m.amount.None? then None
    else
      var recipient := ids.read(m.recipient.value);
      var faucet := ids.read(m.faucet.value);
      var amount := ParseU64(m.amount.value);
      var noteType := ReadNoteType(m);
      if recipient.None? || faucet.None? || amount.None? || noteType.None? then None
      else Some(TransferTx(recipient.value, faucet.value, amount.value, noteType.value, m.heights))
  }

  function ReadNotes(m: Metadata): Option<Transaction> {
    if m.noteIds == [] || !AllWords(m.noteIds) then None
    else Some(ConsumeTx(WordsOf(m.noteIds), m.notesVersion, m.notes))
  }

  function ReadGuardian(m: Metadata): Option<Transaction> {
    if m.guardianPubkey.None? || m.guardianEndpoint.None? || !IsWordHex(m.guardianPubkey.value) then None
    else Some(GuardianTx(m.guardianEndpoint.value, WordOf(m.guardianPubkey.value)))
  }

  function ReadProcedure(m: Metadata): Option<Transaction> {
    if m.targetThreshold.None? || m.procedure.None? || Procedures.Parse(m.procedure.value).None? then None
    else Some(ProcedureTx(Procedures.Parse(m.procedure.value).value, Truncate(m.targetThreshold.value)))
  }

  /** `to_transaction_type`; `None` is an error. */
  function ToTransaction(ids: AccountIds, m: Metadata): Option<Transaction> {
    if m.proposalType == "" then None
    else
      match KindOf(m.proposalType)
      case ConsumeNotes => ReadNotes(m)
      case P2id => ReadPayment(ids, m)
      case SwitchGuardian => ReadGuardian(m)
      case UpdateProcedureThreshold => ReadProcedure(m)
      case AddSigner => ReadSigners(m)
      case RemoveSigner => ReadSigners(m)
      case ChangeThreshold => ReadSigners(m)
      case Unknown => Some(CustomTx)
  }

  /** The transaction `Proposal::from` reads from the metadata: it and the required
      count must be there, and an amount must be a number whatever the type. */
  function ReadMetadata(ids: AccountIds, p: Payload): Option<Transaction> {
    if p.metadata.None? || p.metadata.value.requiredSignatures.None? then None
    else if p.metadata.value.amount.Some? && ParseU64(p.metadata.value.amount.value).None? then None
    else ToTransaction(ids, p.metadata.value)
  }

  /** And what it reads from the payload: every signature must be well formed, and no
      signer may appear twice. */
  function Read(ids: AccountIds, parses: Parser, p: Payload): Option<Transaction> {
    if SignaturesOk(parses, p.signatures) then ReadMetadata(ids, p) else None
  }

  /** A proposal as far as this module goes. */
  datatype Proposal = Proposal(transaction: Transaction, signers: seq<string>, ready: bool)

  /** `Proposal::from`: the metadata, then one signature after the other, then the
      status. */
  method ReadProposal(ids: AccountIds, parses: Parser, p: Payload) returns (r: Option<Proposal>)
    ensures r.Some? <==> Read(ids, parses, p).Some?
    ensures r.Some? ==>
      && Some(r.value.transaction) == Read(ids, parses, p)
      && |r.value.signers| == |p.signatures|
      && (forall i | 0 <= i < |p.signatures| :: r.value.signers[i] == p.signatures[i].signer)
      && p.metadata.Some? && p.metadata.value.requiredSignatures.Some?
      && (r.value.ready <==> 0 < p.metadata.value.requiredSignatures.value <= |p.signatures|)
  {
    hide ToTransaction, IsWordHex, LowerAll, SignaturesOk, Folded, ParseU64;
    var transaction := ReadMetadata(ids, p);
    if transaction.None? {
      return None;
    }
    var signatures := p.signatures;
    var signers: seq<string> := [];
    var seen: set<string> := {};
    NothingIsOk(parses, signatures);
    for i := 0 to |signatures|
      invariant SignaturesOk(parses, signatures[..i]) && seen == Folded(signatures, i)
      invariant |signers| == i && forall j | 0 <= j < i :: signers[j] == signatures[j].signer
    {
      OkStep(parses, signatures, i);
      FoldedStep(signatures, i);
      var word := WordFromHex(signatures[i].signer);
      if word.Err? || !parses(signatures[i]) {
        return None;
      }
      if LowerAll(signatures[i].signer) in seen {
        return None;
      }
      seen := seen + {LowerAll(signatures[i].signer)};
      signers := signers + [signatures[i].signer];
    }
    assert signatures[..|signatures|] == signatures;
    var required := p.metadata.value.requiredSignatures.value;
    return Some(Proposal(transaction.value, signers, |signers| >= required && required > 0));
  }

  // ----- what is read is what was set -----

  /** The transaction a setter is meant to describe, where it describes one: an
      update needs at least one signer and no signer twice, a consumption at least
      one note, and a custom label must not be one of the modelled ones. */
  function Meant(s: Setter): Option<Transaction> {
    match s
    case SetAddSigner(threshold, commitments, _) => MeantSigners(threshold, commitments)
    case SetRemoveSigner(threshold, commitments, _) => MeantSigners(threshold, commitments)
    case SetThreshold(threshold, commitments, _) => MeantSigners(threshold, commitments)
    case SetPayment(recipient, faucet, amount, _, noteType, heights) =>
      Some(TransferTx(recipient, faucet, amount, noteType, heights))
    case SetNotes(noteIds, _) => if noteIds == [] then None else Some(ConsumeTx(noteIds, None, []))
    case SetNotesV2(noteIds, notes, _) => if noteIds == [] then None else Some(ConsumeTx(noteIds, Some(2), notes))
    case SetGuardian(pubkey, endpoint, _) => Some(GuardianTx(endpoint, pubkey))
    case SetProcedureThreshold(procedure, threshold, _) => Some(ProcedureTx(procedure, Truncate(threshold)))
    case SetCustom(name) => if name == "" || !KindOf(name).Unknown? then None else Some(CustomTx)
  }

  function MeantSigners(threshold: U64, commitments: seq<Word>): Option<Transaction> {
    if commitments == [] || !Distinct(commitments) then None else Some(SignersTx(Truncate(threshold), commitments))
  }

  lemma SignersReadBack(ids: AccountIds, k: Kind, threshold: U64, commitments: seq<Word>, salt: string)
    requires k.AddSigner? || k.RemoveSigner? || k.ChangeThreshold?
    ensures ToTransaction(ids, SignersMetadata(k, threshold, commitments, salt)) == MeantSigners(threshold, commitments)
  {
    hide KindOf, Label, AllWords, WordsOf, WordHex;
    KindOfLabel(k);
    WordsOfHexes(commitments);
  }

  lemma PrivateReadsBack()
    ensures NoteTypeOf(NoteTypeName(Private)) == Some(Private)
  {
    assert |"public"| != |"private"|;
  }

  lemma PaymentReadsBack(ids: AccountIds, s: Setter)
    requires ids.Codec() && s.SetPayment?
    ensures ToTransaction(ids, Written(ids, s)) == Meant(s)
  {
    hide KindOf, Label, Digits, ParseU64, NoteTypeOf, NoteTypeName;
    KindOfLabel(P2id);
    ParseOfDigits(s.amount);
    PrivateReadsBack();
  }

  lemma NotesReadBack(ids: AccountIds, s: Setter)
    requires s.SetNotes? || s.SetNotesV2?
    ensures ToTransaction(ids, Written(ids, s)) == Meant(s)
  {
    hide KindOf, Label, AllWords, WordsOf, WordHex;
    KindOfLabel(ConsumeNotes);
    WordsOfHexes(s.noteIds);
  }

  lemma GuardianReadsBack(ids: AccountIds, s: Setter)
    requires s.SetGuardian?
    ensures ToTransaction(ids, Written(ids, s)) == Meant(s)
  {
    hide KindOf, Label, WordOf, IsWordHex, WordHex;
    KindOfLabel(SwitchGuardian);
    ReadsHex(s.pubkey);
  }

  lemma ProcedureReadsBack(ids: AccountIds, s: Setter)
    requires s.SetProcedureThreshold?
    ensures ToTransaction(ids, Written(ids, s)) == Meant(s)
  {
    hide KindOf, Label, Procedures.Parse, Procedures.Name;
    KindOfLabel(UpdateProcedureThreshold);
    Procedures.ParseIsName(Procedures.Name(s.procedure), s.procedure);
  }

  lemma CustomReadsBack(ids: AccountIds, name: string)
    ensures ToTransaction(ids, NO_METADATA.(proposalType := name)) == Meant(SetCustom(name))
  {
    hide KindOf;
  }

  /** The reader inverts every setter that describes a transaction and refuses
      exactly the others. */
  lemma SetterReadsBack(ids: AccountIds, s: Setter)
    requires ids.Codec()
    ensures ToTransaction(ids, Written(ids, s)) == Meant(s)
  {
    hide ToTransaction, Label, KindOf, SignersMetadata, MeantSigners;
    match s
    case SetAddSigner(threshold, commitments, salt) => SignersReadBack(ids, AddSigner, threshold, commitments, salt);
    case SetRemoveSigner(threshold, commitments, salt) => SignersReadBack(ids, RemoveSigner, threshold, commitments, salt);
    case SetThreshold(threshold, commitments, salt) => SignersReadBack(ids, ChangeThreshold, threshold, commitments, salt);
    case SetPayment(_, _, _, _, _, _) => PaymentReadsBack(ids, s);
    case SetNotes(_, _) => NotesReadBack(ids, s);
    case SetNotesV2(_, _, _) => NotesReadBack(ids, s);
    case SetGuardian(_, _, _) => GuardianReadsBack(ids, s);
    case SetProcedureThreshold(_, _, _) => ProcedureReadsBack(ids, s);
    case SetCustom(name) => CustomReadsBack(ids, name);
  }

  // ----- any sequence of builder calls -----

  /** What the transaction is read from: all but the schemes, the count and the block. */
  function Core(m: Metadata): Metadata {
    m.(signerSchemes := [], requiredSignatures := None, boundBlock := None)
  }

  lemma CoreDecides(ids: AccountIds, m: Metadata)
    ensures ToTransaction(ids, Core(m)) == ToTransaction(ids, m)
  {
    hide KindOf, IsCommitmentList, AllWords, WordsOf, ParseU64, NoteTypeOf, IsWordHex, WordOf, Procedures.Parse;
  }

  lemma WrittenIsCore(ids: AccountIds, s: Setter)
    ensures Core(Written(ids, s)) == Written(ids, s)
    ensures Written(ids, s).amount.Some? ==> ParseU64(Written(ids, s).amount.value).Some?
  {
    hide Label, Digits, ParseU64, NoteTypeName, WordHex, Procedures.Name;
    if s.SetPayment? {
      ParseOfDigits(s.amount);
    }
  }

  predicate IsLastSet(steps: seq<Step>, i: nat) {
    i < |steps| && steps[i].Set? && forall j | i < j < |steps| :: !steps[j].Set?
  }

  predicate CountGiven(steps: seq<Step>, i: nat) {
    exists j | i < j < |steps| :: steps[j].Required?
  }

  /** The schemes named after the last setter, which clears them. */
  function SchemesAfter(steps: seq<Step>, i: nat): seq<Scheme>
    requires i < |steps|
    decreases |steps|
  {
    if i == |steps| - 1 then []
    else if steps[|steps| - 1].Schemes? then steps[|steps| - 1].schemes
    else SchemesAfter(steps[..|steps| - 1], i)
  }

  lemma {:induction false} LastSetDecides(ids: AccountIds, p: Payload, steps: seq<Step>, i: nat)
    requires IsLastSet(steps, i)
    ensures
      var built := Build(ids, p, steps).metadata;
      && built.Some?
      && Core(built.value) == Written(ids, steps[i].setter)
      && (built.value.requiredSignatures.Some? <==> CountGiven(steps, i))
      && built.value.signerSchemes == Names(SchemesAfter(steps, i))
    decreases |steps|
  {
    hide Written, Names;
    var before, last := steps[..|steps| - 1], steps[|steps| - 1];
    assert steps == before + [last];
    if i == |steps| - 1 {
      WrittenIsCore(ids, last.setter);
      NoNames();
      var w := Written(ids, last.setter);
      assert w.requiredSignatures == Core(w).requiredSignatures && w.signerSchemes == Core(w).signerSchemes;
    } else {
      LastSetDecides(ids, p, before, i);
      assert steps[|before|] == last;
      assert CountGiven(steps, i) <==> CountGiven(before, i) || last.Required?;
    }
  }

  lemma NoNames()
    ensures Names([]) == []
  {
  }

  /** The signatures a sequence of builder calls adds. */
  function Signed(steps: seq<Step>): seq<Signature> {
    if steps == [] then []
    else Signed(steps[..|steps| - 1]) + if steps[|steps| - 1].Sign? then [steps[|steps| - 1].signature] else []
  }

  lemma {:induction false} SignaturesBuilt(ids: AccountIds, p: Payload, steps: seq<Step>)
    ensures Build(ids, p, steps).signatures == p.signatures + Signed(steps)
    decreases |steps|
  {
    hide Written, Names;
    if steps == [] {
      assert p.signatures + [] == p.signatures;
    } else {
      var before, last := steps[..|steps| - 1], steps[|steps| - 1];
      SignaturesBuilt(ids, p, before);
      assert p.signatures + Signed(before) + [] == p.signatures + (Signed(before) + []);
    }
  }

  /** Whatever else is called, what is read is what the last setter means, provided
      the required count was given after it (a setter clears it), every signature is
      well formed and no signer signed twice; otherwise nothing is read. */
  lemma BuiltPayloadReadsBack(ids: AccountIds, parses: Parser, p: Payload, steps: seq<Step>, i: nat)
    requires ids.Codec() && IsLastSet(steps, i)
    ensures Read(ids, parses, Build(ids, p, steps)) ==
            if CountGiven(steps, i) && SignaturesOk(parses, p.signatures + Signed(steps)) then Meant(steps[i].setter) else None
  {
    hide Written, ToTransaction, Build, Meant, ParseU64, CountGiven, SignaturesOk, Signed, Names;
    LastSetDecides(ids, p, steps, i);
    SignaturesBuilt(ids, p, steps);
    var m, s := Build(ids, p, steps).metadata.value, steps[i].setter;
    CoreDecides(ids, m);
    WrittenIsCore(ids, s);
    SetterReadsBack(ids, s);
    assert m.amount == Core(m).amount;
  }

  /** In particular, once one signer signed twice nobody can read the payload. */
  lemma SigningTwiceIsUnreadable(ids: AccountIds, parses: Parser, p: Payload, steps: seq<Step>, j: nat, k: nat)
    requires j < k < |steps| && steps[j].Sign? && steps[k].Sign?
    requires EqIgnoreCase(steps[j].signature.signer, steps[k].signature.signer)
    ensures Read(ids, parses, Build(ids, p, steps)) == None
  {
    hide Build, ReadMetadata, LowerAll;
    SignaturesBuilt(ids, p, steps);
    var m := SignedAt(steps, j);
    var n := SignedAt(steps, k);
    SignedInOrder(steps, j, k);
    hide Signed;
    var sigs := p.signatures + Signed(steps);
    assert sigs[|p.signatures| + m] == steps[j].signature && sigs[|p.signatures| + n] == steps[k].signature;
  }

  /** Where the signature of a step ends up. */
  lemma {:induction false} SignedAt(steps: seq<Step>, j: nat) returns (m: nat)
    requires j < |steps| && steps[j].Sign?
    ensures m == |Signed(steps[..j])| && m < |Signed(steps)| && Signed(steps)[m] == steps[j].signature
    decreases |steps|
  {
    var before := steps[..|steps| - 1];
    if j == |steps| - 1 {
      m := |Signed(before)|;
    } else {
      m := SignedAt(before, j);
      assert before[..j] == steps[..j];
    }
  }

  lemma {:induction false} SignedInOrder(steps: seq<Step>, j: nat, k: nat)
    requires j < k <= |steps| && steps[j].Sign?
    ensures |Signed(steps[..j])| < |Signed(steps[..k])|
    decreases k
  {
    assert steps[..k][..k - 1] == steps[..k - 1];
    if j < k - 1 {
      SignedInOrder(steps, j, k - 1);
    }
  }

  predicate SetsSigners(s: Setter) {
    s.SetAddSigner? || s.SetRemoveSigner? || s.SetThreshold?
  }

  /** A payload built for `targets`, with the schemes the writer chose for them, resolves
      to exactly those targets for every reader of the account, whatever was built before
      and whatever else is called. */
  lemma SignerPayloadResolves(ids: AccountIds, p: Payload, steps: seq<Step>, i: nat, targets: seq<Signer>, proposer: Scheme,
                              current: seq<Signer>)
    requires IsLastSet(steps, i) && SetsSigners(steps[i].setter) && steps[i].setter.commitments == Commitments(targets)
    requires Proposable(targets, current) && SchemesAfter(steps, i) == WireSchemes(targets, proposer, current)
    ensures
      var m := Build(ids, p, steps).metadata;
      m.Some? && TargetSigners(m.value.signerCommitments, m.value.signerSchemes, current) == Ok(targets)
  {
    hide Build, Names, Hexes, TargetSigners, WireSchemes, Proposable, SchemesAfter;
    LastSetDecides(ids, p, steps, i);
    var m := Build(ids, p, steps).metadata.value;
    assert m.signerCommitments == Core(m).signerCommitments == Hexes(Commitments(targets));
    ProposalsReadBack(targets, proposer, current);
  }

  /** The salt the summary binds, where the setter takes one. */
  function SaltOf(s: Setter): Option<string> {
    if s.SetCustom? then None else Some(s.salt)
  }

  /** Nor is the last setter's salt lost. */
  lemma SaltIsKept(ids: AccountIds, p: Payload, steps: seq<Step>, i: nat)
    requires IsLastSet(steps, i)
    ensures Build(ids, p, steps).metadata.Some? && Build(ids, p, steps).metadata.value.salt == SaltOf(steps[i].setter)
  {
    LastSetDecides(ids, p, steps, i);
    var m := Build(ids, p, steps).metadata.value;
    assert m.salt == Core(m).salt;
    hide Build, Names, Label, Digits, NoteTypeName, WordHex, Procedures.Name;
  }
}
