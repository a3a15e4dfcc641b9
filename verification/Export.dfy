/**
Offline proposal documents (crates/miden-multisig-client/src/export.rs).

A document carries one proposal and the signatures collected for it so far. It is
validated when it is imported and grows in place as cosigners add signatures.
*/
module Export {
  import opened Wrappers
  import opened Ascii
  import opened Words
  import opened Signers
  import opened Signatures

  const EXPORT_VERSION := 1

  type AccountId = string
  type Transaction = string

  // ----- documents and proposals -----

  /** A proposal's metadata, as far as its transaction goes. */
  datatype Details = Details(
    newThreshold: Option<nat>,
    signerCommitments: seq<string>,
    signerSchemes: seq<string>,
    salt: Option<string>,
    recipient: Option<string>,
    faucet: Option<string>,
    amount: Option<nat>,
    noteType: Option<string>,
    reclaimHeight: Option<nat>,
    timelockHeight: Option<nat>,
    noteIds: seq<string>,
    notesVersion: Option<nat>,
    notes: seq<string>,
    guardianPubkey: Option<string>,
    guardianEndpoint: Option<string>,
    procedure: Option<string>,
    boundBlock: Option<nat>)

  /** The same, as a document writes it. */
  datatype ExportedMetadata = ExportedMetadata(
    proposalType: string,
    saltHex: Option<string>,
    newThreshold: Option<nat>,
    signerCommitmentsHex: seq<string>,
    signerSchemes: seq<string>,
    recipientHex: Option<string>,
    faucetIdHex: Option<string>,
    amount: Option<nat>,
    noteType: Option<string>,
    reclaimHeight: Option<nat>,
    timelockHeight: Option<nat>,
    noteIdsHex: seq<string>,
    notesVersion: Option<nat>,
    notes: seq<string>,
    newGuardianPubkeyHex: Option<string>,
    newGuardianEndpoint: Option<string>,
    targetProcedure: Option<string>,
    boundBlockNum: Option<nat>)

  function DetailsOf(m: ExportedMetadata): Details {
    Details(m.newThreshold, m.signerCommitmentsHex, m.signerSchemes, m.saltHex, m.recipientHex, m.faucetIdHex, m.amount,
            m.noteType, m.reclaimHeight, m.timelockHeight, m.noteIdsHex, m.notesVersion, m.notes, m.newGuardianPubkeyHex,
            m.newGuardianEndpoint, m.targetProcedure, m.boundBlockNum)
  }

  function ExportedOf(proposalType: string, d: Details): ExportedMetadata {
    ExportedMetadata(proposalType, d.salt, d.newThreshold, d.signerCommitments, d.signerSchemes, d.recipient, d.faucet,
                     d.amount, d.noteType, d.reclaimHeight, d.timelockHeight, d.noteIds, d.notesVersion, d.notes,
                     d.guardianPubkey, d.guardianEndpoint, d.procedure, d.boundBlock)
  }

  /** Everything in a document but its signatures. */
  datatype Header = Header(version: nat, accountId: string, id: string, nonce: nat, summary: string, required: nat,
                           metadata: ExportedMetadata)

  datatype Doc = Doc(header: Header, signatures: seq<Signature>)

  datatype Metadata = Metadata(summary: Option<string>, proposalType: Option<string>, details: Details,
                               required: Option<nat>, signers: seq<string>)

  datatype Status = Pending | Ready

  datatype Proposal = Proposal(id: string, nonce: nat, transaction: Transaction, status: Status,
                               signatures: seq<Signature>, metadata: Metadata)

  /** What the model does not look into: account ids, the id a transaction summary
      has, the transaction metadata describes, and whether a signature parses. */
  datatype Codec = Codec(readId: string -> Option<AccountId>,
                         showId: AccountId -> string,
                         summaryId: string -> Option<string>,
                         transaction: (string, Details) -> Option<Transaction>,
                         parses: Signature -> bool)

  function SignersOf(signatures: seq<Signature>): seq<string> {
    seq(|signatures|, i requires 0 <= i < |signatures| => signatures[i].signer)
  }

  // ----- validity -----

  /** `utils::strip_hex_prefix` knows both prefixes. */
  function AnyPrefixStripped(s: string): string {
    if "0x" <= s || "0X" <= s then s[2..] else s
  }

  predicate HexBodyEq(s: string, t: string) {
    EqIgnoreCase(AnyPrefixStripped(s), AnyPrefixStripped(t))
  }

  /** What `validate` checks before the signatures, in order. */
  predicate Passes(c: Codec, h: Header, expected: Option<AccountId>, check: nat) {
    match check
    case 0 => c.readId(h.accountId).Some?
    case 1 => expected.Some? ==> c.readId(h.accountId) == expected
    case 2 => h.id != ""
    case 3 => h.required != 0
    case 4 => c.summaryId(h.summary).Some?
    case 5 => c.summaryId(h.summary).Some? && HexBodyEq(h.id, c.summaryId(h.summary).value)
    case 6 => c.transaction(h.metadata.proposalType, DetailsOf(h.metadata)).Some?
    case _ => true
  }

  const HEADER_ERRORS: seq<DocError> := [BadAccount, WrongAccount, NoId, ZeroRequired, BadSummary, IdMismatch, BadMetadata]

  predicate PassesUpTo(c: Codec, h: Header, expected: Option<AccountId>, check: nat) {
    forall k: nat | k < check :: Passes(c, h, expected, k)
  }

  predicate HeaderOk(c: Codec, h: Header, expected: Option<AccountId>) {
    && c.readId(h.accountId).Some?
    && (expected.Some? ==> c.readId(h.accountId) == expected)
    && h.id != "" && h.required != 0
    && c.summaryId(h.summary).Some? && HexBodyEq(h.id, c.summaryId(h.summary).value)
    && c.transaction(h.metadata.proposalType, DetailsOf(h.metadata)).Some?
  }

  lemma HeaderOkIsAllChecks(c: Codec, h: Header, expected: Option<AccountId>)
    ensures HeaderOk(c, h, expected) <==> PassesUpTo(c, h, expected, |HEADER_ERRORS|)
  {
    hide HexBodyEq, DetailsOf;
    if PassesUpTo(c, h, expected, |HEADER_ERRORS|) {
      assert Passes(c, h, expected, 0) && Passes(c, h, expected, 1) && Passes(c, h, expected, 2) && Passes(c, h, expected, 3);
      assert Passes(c, h, expected, 4) && Passes(c, h, expected, 5) && Passes(c, h, expected, 6);
    }
  }

  predicate Valid(c: Codec, d: Doc, expected: Option<AccountId>) {
    HeaderOk(c, d.header, expected) && SignaturesOk(c.parses, d.signatures)
  }

  datatype DocError =
    | BadAccount | WrongAccount | NoId | ZeroRequired | BadSummary | IdMismatch | BadMetadata
    | BadSignatures(error: SignatureError)
    | AlreadySigned

  /** `validate`: the error is that of the first check that fails. */
  method Validate(c: Codec, d: Doc, expected: Option<AccountId>) returns (r: Option<DocError>)
    ensures r.None? <==> Valid(c, d, expected)
    ensures forall k | 0 <= k < |HEADER_ERRORS| ::
              r == Some(HEADER_ERRORS[k]) <==> PassesUpTo(c, d.header, expected, k) && !Passes(c, d.header, expected, k)
    ensures (r.Some? && r.value.BadSignatures?) <==> HeaderOk(c, d.header, expected) && !SignaturesOk(c.parses, d.signatures)
  {
    hide SignaturesOk, HexBodyEq, Passes, HeaderOk;
    HeaderOkIsAllChecks(c, d.header, expected);
    var check := FirstFailing(c, d.header, expected);
    if check < |HEADER_ERRORS| {
      return Some(HEADER_ERRORS[check]);
    }
    var bad := ValidateSignatures(c.parses, d.signatures);
    return if bad.Some? then Some(BadSignatures(bad.value)) else None;
  }

  /** The checks, one after the other. */
  method FirstFailing(c: Codec, h: Header, expected: Option<AccountId>) returns (check: nat)
    ensures check <= |HEADER_ERRORS| && PassesUpTo(c, h, expected, check)
    ensures check < |HEADER_ERRORS| ==> !Passes(c, h, expected, check)
  {
    hide HexBodyEq;
    if c.readId(h.accountId).None? {
      return 0;
    }
    if expected.Some? && c.readId(h.accountId) != expected {
      return 1;
    }
    if h.id == "" {
      return 2;
    }
    if h.required == 0 {
      return 3;
    }
    if c.summaryId(h.summary).None? {
      return 4;
    }
    if !HexBodyEq(h.id, c.summaryId(h.summary).value) {
      return 5;
    }
    if c.transaction(h.metadata.proposalType, DetailsOf(h.metadata)).None? {
      return 6;
    }
    return 7;
  }

  // ----- adding signatures -----

  predicate HasSigned(signatures: seq<Signature>, signer: string) {
    exists i | 0 <= i < |signatures| :: EqIgnoreCase(signatures[i].signer, signer)
  }

  /** Whether a document takes a signature. */
  predicate Takes(c: Codec, signatures: seq<Signature>, s: Signature) {
    SignatureOk(c.parses, s) && !HasSigned(signatures, s.signer)
  }

  function Added(c: Codec, signatures: seq<Signature>, s: Signature): seq<Signature> {
    if Takes(c, signatures, s) then signatures + [s] else signatures
  }

  class ExportedProposal {
    const header: Header
    var signatures: seq<Signature>

    constructor (h: Header)
      ensures header == h && signatures == []
    {
      header := h;
      signatures := [];
    }

    function Value(): Doc
      reads this
    {
      Doc(header, signatures)
    }

    /** `add_signature`. */
    method AddSignature(c: Codec, s: Signature) returns (r: Option<DocError>)
      modifies this`signatures
      ensures r.None? <==> Takes(c, old(signatures), s)
      ensures signatures == Added(c, old(signatures), s)
      ensures r == Some(AlreadySigned) <==> SignatureOk(c.parses, s) && HasSigned(old(signatures), s.signer)
      ensures old(SignaturesOk(c.parses, signatures)) ==> SignaturesOk(c.parses, signatures)
      ensures old(IsReady()) ==> IsReady()
    {
      hide IsWordHex, LowerAll, SignaturesOk;
      AddedIsOk(c, signatures, s);
      var word := WordFromHex(s.signer);
      if word.Err? {
        return Some(BadSignatures(BadSigner(0)));
      }
      OneIsOk(c, s);
      var alone := ValidateSignatures(c.parses, [s]);
      if alone.Some? {
        return Some(BadSignatures(alone.value));
      }
      if HasSigned(signatures, s.signer) {
        return Some(AlreadySigned);
      }
      signatures := signatures + [s];
      return None;
    }

    /** `is_ready`. */
    predicate IsReady()
      reads this
    {
      |signatures| >= header.required
    }
  }

  lemma OneIsOk(c: Codec, s: Signature)
    ensures SignaturesOk(c.parses, [s]) <==> SignatureOk(c.parses, s)
  {
    assert [s][0] == s;
  }

  lemma AddedIsOk(c: Codec, signatures: seq<Signature>, s: Signature)
    ensures SignaturesOk(c.parses, signatures) ==> SignaturesOk(c.parses, Added(c, signatures, s))
  {
    hide IsWordHex, LowerAll;
    if Takes(c, signatures, s) && SignaturesOk(c.parses, signatures) {
      var next := signatures + [s];
      assert next[..|signatures|] == signatures && next[..|next|] == next;
      assert forall j | 0 <= j < |signatures| :: !EqIgnoreCase(signatures[j].signer, s.signer);
      OkStep(c.parses, next, |signatures|);
    }
  }

  // ----- any sequence of attempts -----

  function AddedAll(c: Codec, d: Doc, attempts: seq<Signature>): Doc {
    if attempts == [] then d
    else
      var before := AddedAll(c, d, attempts[..|attempts| - 1]);
      before.(signatures := Added(c, before.signatures, attempts[|attempts| - 1]))
  }

  /** The status `to_proposal` gives. */
  function StatusOf(d: Doc): Status {
    if |d.signatures| >= d.header.required then Ready else Pending
  }

  /** A valid document stays valid under every sequence of attempts, keeps its
      header and its signatures, and never becomes unready again. */
  lemma {:induction false} StaysValid(c: Codec, d: Doc, attempts: seq<Signature>, expected: Option<AccountId>)
    requires Valid(c, d, expected)
    ensures
      var after := AddedAll(c, d, attempts);
      && Valid(c, after, expected)
      && after.header == d.header
      && d.signatures <= after.signatures
      && (StatusOf(d) == Ready ==> StatusOf(after) == Ready)
    decreases |attempts|
  {
    hide SignaturesOk, HeaderOk, Takes;
    if attempts != [] {
      var before, last := attempts[..|attempts| - 1], attempts[|attempts| - 1];
      StaysValid(c, d, before, expected);
      AddedIsOk(c, AddedAll(c, d, before).signatures, last);
    }
  }

  /** After any attempts the signers are, up to case, exactly the original ones and
      those of the well-formed attempts. */
  lemma {:induction false} TakenOnce(c: Codec, d: Doc, attempts: seq<Signature>, signer: string)
    ensures HasSigned(AddedAll(c, d, attempts).signatures, signer) <==>
            HasSigned(d.signatures, signer) ||
            exists i | 0 <= i < |attempts| :: SignatureOk(c.parses, attempts[i]) && EqIgnoreCase(attempts[i].signer, signer)
    decreases |attempts|
  {
    hide SignatureOk, LowerAll;
    if attempts != [] {
      var before, last := attempts[..|attempts| - 1], attempts[|attempts| - 1];
      assert attempts == before + [last];
      TakenOnce(c, d, before, signer);
      var sigs := AddedAll(c, d, before).signatures;
      HasSignedSnoc(sigs, last, signer);
      HasSignedFolds(sigs, last.signer, signer);
    }
  }

  lemma HasSignedSnoc(signatures: seq<Signature>, s: Signature, signer: string)
    ensures HasSigned(signatures + [s], signer) <==> HasSigned(signatures, signer) || EqIgnoreCase(s.signer, signer)
  {
    hide LowerAll;
    var next := signatures + [s];
    assert next[|signatures|] == s && forall i | 0 <= i < |signatures| :: next[i] == signatures[i];
  }

  lemma HasSignedFolds(signatures: seq<Signature>, s: string, t: string)
    ensures EqIgnoreCase(s, t) ==> (HasSigned(signatures, s) <==> HasSigned(signatures, t))
  {
    hide LowerAll;
  }

  // ----- signers as words -----

  /** Two signers of a valid document name the same word exactly when they differ
      in the prefix only. */
  lemma SameWordOnlyByPrefix(s: string, t: string)
    requires IsWordHex(s) && IsWordHex(t) && LowerAll(s) != LowerAll(t)
    ensures WordOf(s) == WordOf(t) <==> ("0x" <= s) != ("0x" <= t) && LowerAll(StripPrefix(s)) == LowerAll(StripPrefix(t))
  {
    hide WordHex, WordOf, IsWordHex, LowerAll, StripPrefix, EnsurePrefix;
    WordHexOfParse(s);
    WordHexOfParse(t);
    WordHexInjective(WordOf(s), WordOf(t));
    SamePrefixed(LowerAll(StripPrefix(s)), LowerAll(StripPrefix(t)));
    FoldsAs(s);
    FoldsAs(t);
  }

  lemma SamePrefixed(x: string, y: string)
    ensures "0x" + x == "0x" + y <==> x == y
  {
    assert ("0x" + x)[2..] == x && ("0x" + y)[2..] == y;
  }

  lemma FoldsAs(s: string)
    ensures LowerAll(s) == if "0x" <= s then "0x" + LowerAll(StripPrefix(s)) else LowerAll(StripPrefix(s))
  {
    if "0x" <= s {
      assert s == "0x" + StripPrefix(s);
      LowerPrefixed(StripPrefix(s));
    }
  }

  predicate UniformPrefix(signatures: seq<Signature>) {
    forall i, j | 0 <= i < j < |signatures| :: ("0x" <= signatures[i].signer) == ("0x" <= signatures[j].signer)
  }

  predicate WordsDistinct(signatures: seq<Signature>) {
    forall i, j | 0 <= i < j < |signatures| ::
      IsWordHex(signatures[i].signer) && IsWordHex(signatures[j].signer) ==>
        WordOf(signatures[i].signer) != WordOf(signatures[j].signer)
  }

  /** So where all signers are written alike, a ready document was signed by as
      many distinct approvers as it requires. */
  lemma UniformSignersAreDistinct(c: Codec, d: Doc)
    requires SignaturesOk(c.parses, d.signatures) && UniformPrefix(d.signatures)
    ensures WordsDistinct(d.signatures)
  {
    hide IsWordHex, WordOf, LowerAll;
    var sigs := d.signatures;
    forall i, j | 0 <= i < j < |sigs|
      ensures WordOf(sigs[i].signer) != WordOf(sigs[j].signer)
    {
      assert SignatureOk(c.parses, sigs[i]) && SignatureOk(c.parses, sigs[j]);
      SameWordOnlyByPrefix(sigs[i].signer, sigs[j].signer);
    }
  }

  /** Otherwise one approver can count twice, under either spelling. */
  lemma SpellingsCountTwice(c: Codec, w: Word, s: Signature)
    requires c.parses(s.(signer := WordHex(w))) && c.parses(s.(signer := WordHex(w)[2..]))
    ensures
      var sigs := [s.(signer := WordHex(w)), s.(signer := WordHex(w)[2..])];
      SignaturesOk(c.parses, sigs) && !WordsDistinct(sigs)
  {
    hide IsWordHex, WordOf, LowerAll, WordHex;
    ReadsHex(w);
    BareReads(w);
    var x, y := WordHex(w), WordHex(w)[2..];
    var sigs := [s.(signer := x), s.(signer := y)];
    LongerDiffers(x, y);
    assert sigs[0].signer == x && sigs[1].signer == y;
    assert SignatureOk(c.parses, sigs[0]) && SignatureOk(c.parses, sigs[1]);
  }

  lemma LongerDiffers(x: string, y: string)
    ensures |x| != |y| ==> LowerAll(x) != LowerAll(y)
  {
    assert |LowerAll(x)| == |x| && |LowerAll(y)| == |y|;
  }

  lemma BareReads(w: Word)
    ensures |WordHex(w)| == 66 && IsWordHex(WordHex(w)[2..]) && WordOf(WordHex(w)[2..]) == w
    ensures !("0x" <= WordHex(w)[2..])
  {
    var x, y := WordHex(w), WordHex(w)[2..];
    ReadsHex(w);
    hide HexEncode, HexDecode, FromLe;
    assert y == StripPrefix(x);
    assert !("0x" <= y) by {
      assert IsHexBytes(y);
      assert !IsHex('x');
    }
    assert StripPrefix(y) == y;
  }

  // ----- import and export -----

  /** `metadata()`. */
  function MetadataOf(d: Doc): Metadata {
    Metadata(Some(d.header.summary), Some(d.header.metadata.proposalType), DetailsOf(d.header.metadata),
             Some(d.header.required), SignersOf(d.signatures))
  }

  /** `to_proposal`; `None` where the document is not valid. */
  function ToProposal(c: Codec, d: Doc): Option<Proposal> {
    var transaction := c.transaction(d.header.metadata.proposalType, DetailsOf(d.header.metadata));
    if !Valid(c, d, None) then None
    else Some(Proposal(d.header.id, d.header.nonce, transaction.value,
                       StatusOf(d), d.signatures, MetadataOf(d)))
  }

  /** `signatures_required`. */
  function RequiredBy(m: Metadata): nat {
    if m.required.Some? then m.required.value else |m.details.signerCommitments|
  }

  /** `from_proposal`: without signatures; `typeOf` names the type of a transaction
      whose metadata has none. */
  function FromProposal(c: Codec, p: Proposal, account: AccountId, typeOf: Transaction -> Option<string>): Option<Doc> {
    var m := p.metadata;
    var proposalType := if m.proposalType.Some? then m.proposalType else typeOf(p.transaction);
    if proposalType.None? then None
    else Some(Doc(Header(EXPORT_VERSION, c.showId(account), p.id, p.nonce,
                         if m.summary.Some? then m.summary.value else "{}",
                         RequiredBy(m),
                         ExportedOf(proposalType.value, m.details)), []))
  }

  /** Exporting what was imported reproduces the document without its signatures,
      exactly when it has the current version and its account id is written the
      way ids are written. */
  lemma ExportUndoesImport(c: Codec, d: Doc, typeOf: Transaction -> Option<string>)
    requires Valid(c, d, None)
    ensures
      var account := c.readId(d.header.accountId).value;
      var again := FromProposal(c, ToProposal(c, d).value, account, typeOf);
      && again.Some?
      && again.value.signatures == []
      && again.value.header == d.header.(version := EXPORT_VERSION, accountId := c.showId(account))
      && (again.value.header == d.header <==>
          d.header.version == EXPORT_VERSION && d.header.accountId == c.showId(account))
  {
    hide SignaturesOk, HexBodyEq;
  }

  /** What makes a proposal survive export and import: its metadata names its summary,
      type and a positive number of required signatures, its id is that of the summary,
      its transaction is what the metadata describes, its signatures are valid and
      listed as its signers, and its status is up to date. */
  predicate Exportable(c: Codec, p: Proposal) {
    var m := p.metadata;
    && m.summary.Some? && m.proposalType.Some? && m.required.Some? && m.required.value > 0
    && p.id != "" && c.summaryId(m.summary.value).Some? && HexBodyEq(p.id, c.summaryId(m.summary.value).value)
    && c.transaction(m.proposalType.value, m.details) == Some(p.transaction)
    && SignaturesOk(c.parses, p.signatures) && m.signers == SignersOf(p.signatures)
    && p.status == if |p.signatures| >= m.required.value then Ready else Pending
  }

  lemma DetailsReadBack(proposalType: string, d: Details)
    ensures DetailsOf(ExportedOf(proposalType, d)) == d && ExportedOf(proposalType, d).proposalType == proposalType
  {
  }

  /** Importing the export of a proposal, with its signatures put back, gives the
      proposal again if and only if it is exportable. */
  lemma ImportUndoesExport(c: Codec, p: Proposal, account: AccountId, typeOf: Transaction -> Option<string>)
    requires c.readId(c.showId(account)) == Some(account)
    ensures
      var d := FromProposal(c, p, account, typeOf);
      (d.Some? && ToProposal(c, d.value.(signatures := p.signatures)) == Some(p)) <==> Exportable(c, p)
  {
    hide SignaturesOk, HexBodyEq, DetailsOf, ExportedOf;
    var d := FromProposal(c, p, account, typeOf);
    if d.Some? {
      var m := p.metadata;
      DetailsReadBack((if m.proposalType.Some? then m.proposalType else typeOf(p.transaction)).value, m.details);
    }
  }

  /** What is imported is exportable. */
  lemma ImportedIsExportable(c: Codec, d: Doc)
    requires Valid(c, d, None)
    ensures Exportable(c, ToProposal(c, d).value)
  {
    hide SignaturesOk, HexBodyEq, DetailsOf;
  }

  /** The status `Proposal::refresh_status` computes from the metadata. */
  function Refreshed(p: Proposal): Status {
    var required := RequiredBy(p.metadata);
    if |p.metadata.signers| >= required && required > 0 then Ready else Pending
  }

  /** An imported proposal has the status its own metadata says, which is whether
      the document is ready, and lists the signers of its signatures. */
  lemma ImportedStatusIsRefreshed(c: Codec, d: Doc)
    requires Valid(c, d, None)
    ensures
      var p := ToProposal(c, d).value;
      && Refreshed(p) == p.status
      && (p.status == Ready <==> |d.signatures| >= d.header.required)
      && |p.metadata.signers| == |p.signatures|
      && forall i | 0 <= i < |p.signatures| :: p.metadata.signers[i] == p.signatures[i].signer
  {
    hide SignaturesOk, HexBodyEq;
  }
}
