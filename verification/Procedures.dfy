/**
The account procedures whose threshold can be overridden
(crates/miden-multisig-client/src/procedures.rs): their roots and their names.
*/
module Procedures {
  import opened Wrappers
  import opened Ascii
  import opened Words

  datatype ProcedureName =
    | UpdateSigners
    | UpdateProcedureThreshold
    | AuthTx
    | UpdateGuardian
    | SendAsset
    | ReceiveAsset
    | CreateNote

  /** `ProcedureName::all`. */
  const ALL: seq<ProcedureName> :=
    [UpdateSigners, UpdateProcedureThreshold, AuthTx, UpdateGuardian, SendAsset, ReceiveAsset, CreateNote]

  // ----- names -----

  /** `Display`. */
  function Name(p: ProcedureName): string {
    match p
    case UpdateSigners => "update_signers"
    case UpdateProcedureThreshold => "update_procedure_threshold"
    case AuthTx => "auth_tx"
    case UpdateGuardian => "update_guardian"
    case SendAsset => "send_asset"
    case ReceiveAsset => "receive_asset"
    case CreateNote => "create_note"
  }

  /** `FromStr`. */
  function Parse(s: string): Option<ProcedureName> {
    if s == "update_signers" then Some(UpdateSigners)
    else if s == "update_procedure_threshold" then Some(UpdateProcedureThreshold)
    else if s == "auth_tx" then Some(AuthTx)
    else if s == "update_guardian" then Some(UpdateGuardian)
    else if s == "send_asset" then Some(SendAsset)
    else if s == "receive_asset" then Some(ReceiveAsset)
    else if s == "create_note" then Some(CreateNote)
    else None
  }

  /** A name parses exactly to the procedure it is the name of. */
  lemma ParseIsName(s: string, p: ProcedureName)
    ensures Parse(s) == Some(p) <==> s == Name(p)
  {
    NamesDiffer();
  }

  lemma NamesDiffer()
    ensures forall p, q :: Name(p) == Name(q) ==> p == q
  {
    forall p, q | Name(p) == Name(q)
      ensures p == q
    {
      assert |Name(p)| == |Name(q)| && Name(p)[0] == Name(q)[0] && Name(p)[1] == Name(q)[1];
    }
  }

  // ----- roots -----

  /** Limb `k` of a root, as the sixteen digits that spell it. */
  function LimbHex(p: ProcedureName, k: nat): string
    requires k < 4
  {
    match p
    case UpdateSigners =>
      if k == 0 then "0f664cdaae422fe4" else if k == 1 then "3bb45d959c7e469b"
      else if k == 2 then "0c855ad1fc4e79fd" else "dd730ec3cb983c6e"
    case UpdateProcedureThreshold =>
      if k == 0 then "a32cd13808fd8fb9" else if k == 1 then "1adb3dceaed4d8fa"
      else if k == 2 then "ebc3bd80fa49c290" else "3be4b8d7bf89ba77"
    case AuthTx =>
      if k == 0 then "71ba7380c6138d5e" else if k == 1 then "80e911094a9767ed"
      else if k == 2 then "0fa5c8ffefcf6a77" else "6754bfc75bc163b9"
    case UpdateGuardian =>
      if k == 0 then "93dedb135fd5bb71" else if k == 1 then "12c07aacf4a5680d"
      else if k == 2 then "dc76e45ecf043bfc" else "42ea735b6d971911"
    case SendAsset =>
      if k == 0 then "f261e7bdd1faee5d" else if k == 1 then "b3b0abe4bb67b153"
      else if k == 2 then "fbca6ece3e456b83" else "eff98697f21f6a97"
    case ReceiveAsset =>
      if k == 0 then "d7416b798a70aabb" else if k == 1 then "ca510c3cd0f48ba3"
      else if k == 2 then "5473b5d76dc30237" else "5157c6f563fffc15"
    case CreateNote =>
      if k == 0 then "27641b79c8aec7ec" else if k == 1 then "29820c907eb5c051"
      else if k == 2 then "34b7d02cf69e7e73" else "a5b7dcd09c803a95"
  }

  function RootDigits(p: ProcedureName): string {
    LimbHex(p, 0) + LimbHex(p, 1) + LimbHex(p, 2) + LimbHex(p, 3)
  }

  function RootHex(p: ProcedureName): string {
    "0x" + RootDigits(p)
  }

  /** Sixteen lower-case digits that do not end in `ff`, so that they spell a
      field element. */
  predicate PlainLimb(s: string) {
    && |s| == 16
    && (forall i | 0 <= i < 16 :: '0' <= s[i] <= '9' || 'a' <= s[i] <= 'f')
    && !(s[14] == 'f' && s[15] == 'f')
  }

  lemma UpdateSignersIsPlain(k: nat)
    requires k < 4
    ensures PlainLimb(LimbHex(UpdateSigners, k))
  {
  }

  lemma UpdateProcedureThresholdIsPlain(k: nat)
    requires k < 4
    ensures PlainLimb(LimbHex(UpdateProcedureThreshold, k))
  {
  }

  lemma AuthTxIsPlain(k: nat)
    requires k < 4
    ensures PlainLimb(LimbHex(AuthTx, k))
  {
  }

  lemma UpdateGuardianIsPlain(k: nat)
    requires k < 4
    ensures PlainLimb(LimbHex(UpdateGuardian, k))
  {
  }

  lemma SendAssetIsPlain(k: nat)
    requires k < 4
    ensures PlainLimb(LimbHex(SendAsset, k))
  {
  }

  lemma ReceiveAssetIsPlain(k: nat)
    requires k < 4
    ensures PlainLimb(LimbHex(ReceiveAsset, k))
  {
  }

  lemma CreateNoteIsPlain(k: nat)
    requires k < 4
    ensures PlainLimb(LimbHex(CreateNote, k))
  {
  }

  lemma LimbsArePlain(p: ProcedureName, k: nat)
    requires k < 4
    ensures PlainLimb(LimbHex(p, k))
  {
    hide LimbHex, PlainLimb;
    match p
    case UpdateSigners => UpdateSignersIsPlain(k);
    case UpdateProcedureThreshold => UpdateProcedureThresholdIsPlain(k);
    case AuthTx => AuthTxIsPlain(k);
    case UpdateGuardian => UpdateGuardianIsPlain(k);
    case SendAsset => SendAssetIsPlain(k);
    case ReceiveAsset => ReceiveAssetIsPlain(k);
    case CreateNote => CreateNoteIsPlain(k);
  }

  lemma {:induction false} FromLeBound(bytes: seq<Byte>)
    requires bytes != []
    ensures FromLe(bytes) < (bytes[|bytes| - 1] + 1) * Pow256(|bytes| - 1)
    decreases |bytes|
  {
    if |bytes| > 1 {
      FromLeBound(bytes[1..]);
      var last: nat := bytes[|bytes| - 1];
      ScaledBound(bytes[0], FromLe(bytes[1..]), last + 1, Pow256(|bytes| - 2));
      assert Pow256(|bytes| - 1) == 256 * Pow256(|bytes| - 2);
    }
  }

  lemma ScaledBound(low: Byte, rest: nat, factor: nat, power: nat)
    requires rest < factor * power
    ensures low + 256 * rest < factor * (256 * power)
  {
    assert factor * (256 * power) == 256 * (factor * power);
  }

  lemma LimbIsFelt(bytes: seq<Byte>)
    requires |bytes| == 8 && bytes[7] < 255
    ensures FromLe(bytes) < MODULUS
  {
    FromLeBound(bytes);
    assert Pow256(7) == 0x100_0000_0000_0000 by {
      assert Pow256(7) == 256 * (256 * (256 * Pow256(4)));
      assert Pow256(4) == 256 * (256 * (256 * Pow256(1)));
    }
  }

  lemma PlainIsWord(digits: string)
    requires |digits| == 64
    requires forall i | 0 <= i < 4 :: PlainLimb(digits[16 * i..16 * i + 16])
    ensures IsWordHex("0x" + digits) && IsHexBytes(digits)
  {
    assert StripPrefix("0x" + digits) == digits;
    forall j | 0 <= j < 64
      ensures IsHex(digits[j])
    {
      var i := j / 16;
      assert PlainLimb(digits[16 * i..16 * i + 16]);
      assert digits[j] == digits[16 * i..16 * i + 16][j - 16 * i];
    }
    var bytes := HexDecode(digits);
    forall i | 0 <= i < 4
      ensures Limb(bytes, i) < MODULUS
    {
      var limb := digits[16 * i..16 * i + 16];
      assert PlainLimb(limb);
      assert limb[14] == digits[2 * (8 * i + 7)] && limb[15] == digits[2 * (8 * i + 7) + 1];
      LimbIsFelt(bytes[8 * i..8 * i + 8]);
    }
  }

  lemma RootIsWord(p: ProcedureName)
    ensures IsWordHex(RootHex(p))
  {
    hide LimbHex;
    var digits := RootDigits(p);
    forall k: nat | k < 4 {
      LimbsArePlain(p, k);
    }
    assert LimbHex(p, 0) == digits[0..16] && LimbHex(p, 1) == digits[16..32];
    assert LimbHex(p, 2) == digits[32..48] && LimbHex(p, 3) == digits[48..64];
    hide PlainLimb;
    PlainIsWord(digits);
  }

  /** `ProcedureName::root`. */
  function Root(p: ProcedureName): Word {
    RootIsWord(p);
    WordOf(RootHex(p))
  }

  function FirstDigit(p: ProcedureName): char {
    match p
    case UpdateSigners => '0'
    case UpdateProcedureThreshold => 'a'
    case AuthTx => '7'
    case UpdateGuardian => '9'
    case SendAsset => 'f'
    case ReceiveAsset => 'd'
    case CreateNote => '2'
  }

  lemma StartsWithItsDigit(p: ProcedureName)
    ensures |RootHex(p)| > 2 && RootHex(p)[2] == FirstDigit(p)
    ensures |Key(RootHex(p))| > 2 && Key(RootHex(p))[2] == FirstDigit(p)
  {
    assert |LimbHex(p, 0)| > 0 && LimbHex(p, 0)[0] == FirstDigit(p);
  }

  /** The seven roots are pairwise distinct words. */
  lemma RootsDiffer(p: ProcedureName, q: ProcedureName)
    ensures Root(p) == Root(q) <==> p == q
  {
    hide RootHex, IsWordHex, WordOf, LowerAll;
    if Root(p) == Root(q) {
      RootIsWord(p);
      RootIsWord(q);
      KeysIdentifyWords(RootHex(p), RootHex(q));
      StartsWithItsDigit(p);
      StartsWithItsDigit(q);
      assert FirstDigit(p) == FirstDigit(q);
    }
  }
}
