/**
Approvers and the scheme the account verifies each one under
(crates/miden-multisig-client/src/signers.rs; crates/shared/src/lib.rs).

A proposal that updates the signers may leave the schemes unnamed, and a reader
then infers them from the approvers the account stores. Writer and reader have to
agree on every account, and no update may change the scheme of an approver it
keeps.
*/
module Signers {
  import opened Wrappers
  import opened Ascii
  import opened Words

  // ----- schemes and their names -----

  datatype Scheme = Falcon | Ecdsa

  /** `SignatureScheme::as_str`. */
  function Name(s: Scheme): string {
    match s
    case Falcon => "falcon"
    case Ecdsa => "ecdsa"
  }

  /** `SignatureScheme::from`. */
  function SchemeOf(name: string): Option<Scheme> {
    if EqIgnoreCase(name, "falcon") then Some(Falcon)
    else if EqIgnoreCase(name, "ecdsa") then Some(Ecdsa)
    else None
  }

  /** A name means the scheme it spells in any case. */
  lemma SchemeOfMeans(name: string, s: Scheme)
    ensures SchemeOf(name) == Some(s) <==> EqIgnoreCase(name, Name(s))
  {
    assert |LowerAll("falcon")| != |LowerAll("ecdsa")|;
  }

  lemma SchemeOfName(s: Scheme)
    ensures SchemeOf(Name(s)) == Some(s)
  {
    SchemeOfMeans(Name(s), s);
  }

  function Other(s: Scheme): Scheme {
    if s.Falcon? then Ecdsa else Falcon
  }

  // ----- approver lists -----

  datatype Signer = Signer(commitment: Word, scheme: Scheme)

  function Commitments(signers: seq<Signer>): (r: seq<Word>)
    ensures |r| == |signers|
    ensures forall i | 0 <= i < |signers| :: r[i] == signers[i].commitment
  {
    seq(|signers|, i requires 0 <= i < |signers| => signers[i].commitment)
  }

  function Schemes(signers: seq<Signer>): seq<Scheme> {
    seq(|signers|, i requires 0 <= i < |signers| => signers[i].scheme)
  }

  /** The first approver with this commitment. */
  function Find(signers: seq<Signer>, commitment: Word): (r: Option<Signer>)
    ensures r.Some? ==> r.value in signers && r.value.commitment == commitment
    ensures r.None? ==> forall s | s in signers :: s.commitment != commitment
  {
    if signers == [] then None
    else if signers[0].commitment == commitment then Some(signers[0])
    else Find(signers[1..], commitment)
  }

  /** The first approver whose commitment is among `commitments`. */
  function FirstKept(signers: seq<Signer>, commitments: seq<Word>): (r: Option<Signer>)
    ensures r.Some? ==> r.value in signers && r.value.commitment in commitments
    ensures r.None? ==> forall s | s in signers :: s.commitment !in commitments
  {
    if signers == [] then None
    else if signers[0].commitment in commitments then Some(signers[0])
    else FirstKept(signers[1..], commitments)
  }

  /** No earlier approver is kept. */
  lemma {:induction false} FirstKeptIsFirst(signers: seq<Signer>, commitments: seq<Word>)
    requires FirstKept(signers, commitments).Some?
    ensures exists i | 0 <= i < |signers| ::
              signers[i] == FirstKept(signers, commitments).value && forall j | 0 <= j < i :: signers[j].commitment !in commitments
    decreases |signers|
  {
    if signers[0].commitment !in commitments {
      FirstKeptIsFirst(signers[1..], commitments);
      var i :| 0 <= i < |signers| - 1 && signers[1..][i] == FirstKept(signers, commitments).value &&
               forall j | 0 <= j < i :: signers[1..][j].commitment !in commitments;
      assert signers[i + 1] == FirstKept(signers, commitments).value;
      assert forall j | 0 < j <= i :: signers[j] == signers[1..][j - 1];
    } else {
      assert signers[0] == FirstKept(signers, commitments).value;
    }
  }

  lemma {:induction false} FindIs(signers: seq<Signer>, s: Signer)
    requires s in signers && Distinct(Commitments(signers))
    ensures Find(signers, s.commitment) == Some(s)
    decreases |signers|
  {
    if signers[0] != s {
      var i :| 0 <= i < |signers| && signers[i] == s;
      assert Commitments(signers)[0] != Commitments(signers)[i];
      assert forall j | 0 <= j < |signers| - 1 :: Commitments(signers[1..])[j] == Commitments(signers)[j + 1];
      FindIs(signers[1..], s);
    }
  }

  // ----- resolving a proposal's targets -----

  datatype Change = Change(commitment: Word, stored: Scheme, proposed: Scheme)

  datatype SignerError =
    | NoApprovers
    | SchemeCount(schemes: nat, commitments: nat)
    | SchemeMismatch(changes: seq<Change>)
    | BadCommitments
    | BadSchemeName

  /** `kept_scheme`. */
  function KeptScheme(commitments: seq<Word>, current: seq<Signer>): Result<Scheme, SignerError> {
    if FirstKept(current, commitments).Some? then Ok(FirstKept(current, commitments).value.scheme)
    else if current != [] then Ok(current[0].scheme)
    else Err(NoApprovers)
  }

  predicate Changed(target: Signer, current: seq<Signer>) {
    var stored := Find(current, target.commitment);
    stored.Some? && stored.value.scheme != target.scheme
  }

  /** The stored approvers that `targets` would give another scheme. */
  function Changes(targets: seq<Signer>, current: seq<Signer>): seq<Change> {
    if targets == [] then []
    else
      var last := targets[|targets| - 1];
      Changes(targets[..|targets| - 1], current) +
      if Changed(last, current) then [Change(last.commitment, Find(current, last.commitment).value.scheme, last.scheme)]
      else []
  }

  function Zip(commitments: seq<Word>, schemes: seq<Scheme>): (r: seq<Signer>)
    requires |commitments| == |schemes|
  {
    seq(|commitments|, i requires 0 <= i < |commitments| => Signer(commitments[i], schemes[i]))
  }

  function Everyone(commitments: seq<Word>, scheme: Scheme): seq<Signer> {
    Zip(commitments, seq(|commitments|, _ => scheme))
  }

  /** `ensure_kept_schemes`, after which `targets` is the result. */
  function Kept(targets: seq<Signer>, current: seq<Signer>): Result<seq<Signer>, SignerError> {
    var changes := Changes(targets, current);
    if changes == [] then Ok(targets) else Err(SchemeMismatch(changes))
  }

  /** `resolve_targets`. */
  function ResolveTargets(commitments: seq<Word>, schemes: seq<Scheme>, current: seq<Signer>): Result<seq<Signer>, SignerError> {
    if schemes == [] then
      var scheme :- KeptScheme(commitments, current);
      Kept(Everyone(commitments, scheme), current)
    else if |schemes| == |commitments| then
      Kept(Zip(commitments, schemes), current)
    else
      Err(SchemeCount(|schemes|, |commitments|))
  }

  /** `wire_schemes`. */
  function WireSchemes(targets: seq<Signer>, proposer: Scheme, current: seq<Signer>): seq<Scheme> {
    if (forall t | t in targets :: t.scheme == proposer) && ResolveTargets(Commitments(targets), [], current) == Ok(targets)
    then [] else Schemes(targets)
  }

  /** No target has another scheme than the account stores for it. */
  predicate KeepsStored(targets: seq<Signer>, current: seq<Signer>) {
    forall t | t in targets :: !Changed(t, current)
  }

  lemma {:induction false} NoChangesIff(targets: seq<Signer>, current: seq<Signer>)
    ensures Changes(targets, current) == [] <==> KeepsStored(targets, current)
    decreases |targets|
  {
    if targets != [] {
      var before, last := targets[..|targets| - 1], targets[|targets| - 1];
      assert targets == before + [last];
      NoChangesIff(before, current);
    }
  }

  lemma ZipOfParts(targets: seq<Signer>)
    ensures |Schemes(targets)| == |targets| && Zip(Commitments(targets), Schemes(targets)) == targets
  {
  }

  /** Writer and reader undo each other exactly on the targets that keep the stored
      schemes, for every account and proposer; the one other exception is an empty
      list on an account without approvers. */
  lemma ReaderUndoesWriter(targets: seq<Signer>, proposer: Scheme, current: seq<Signer>)
    ensures ResolveTargets(Commitments(targets), WireSchemes(targets, proposer, current), current) == Ok(targets) <==>
            KeepsStored(targets, current) && !(targets == [] && current == [])
  {
    hide Changed, Zip, Schemes, Everyone;
    NoChangesIff(targets, current);
    ZipOfParts(targets);
    if targets == [] {
      assert Commitments(targets) == [] && Schemes(targets) == [];
      if current != [] {
        EveryoneOfNone(KeptScheme([], current).value);
      }
    } else {
      assert Schemes(targets) != [];
    }
  }

  lemma EveryoneOfNone(scheme: Scheme)
    ensures Everyone([], scheme) == []
  {
  }

  /** Single-scheme proposals keep their wire shape: on an account of one scheme,
      targets of that scheme go unnamed. */
  lemma SingleSchemeStaysUnnamed(targets: seq<Signer>, scheme: Scheme, current: seq<Signer>)
    requires current != [] && forall s | s in current || s in targets :: s.scheme == scheme
    ensures WireSchemes(targets, scheme, current) == []
  {
    assert Everyone(Commitments(targets), scheme) == targets by {
      assert forall i | 0 <= i < |targets| :: targets[i] in targets;
    }
    assert current[0] in current;
    NoChangesIff(targets, current);
  }

  /** Named schemes are refused exactly when there is not one per commitment or one
      changes a stored approver's, and otherwise taken as they are. */
  lemma NamedResolvesExactly(commitments: seq<Word>, schemes: seq<Scheme>, current: seq<Signer>)
    requires schemes != []
    ensures
      var r := ResolveTargets(commitments, schemes, current);
      && (r == Err(SchemeCount(|schemes|, |commitments|)) <==> |schemes| != |commitments|)
      && (|schemes| == |commitments| ==>
            var targets := Zip(commitments, schemes);
            && (r.Ok? <==> KeepsStored(targets, current))
            && (r.Ok? ==> r.value == targets)
            && (r.Err? ==> r.error.SchemeMismatch? && forall c :: c in r.error.changes <==>
                  exists t | t in targets && Changed(t, current) ::
                    c == Change(t.commitment, Find(current, t.commitment).value.scheme, t.scheme)))
  {
    if |schemes| == |commitments| {
      NoChangesIff(Zip(commitments, schemes), current);
      ChangesAre(Zip(commitments, schemes), current);
    }
  }

  lemma {:induction false} ChangesAre(targets: seq<Signer>, current: seq<Signer>)
    ensures forall c :: c in Changes(targets, current) <==>
              exists t | t in targets && Changed(t, current) ::
                c == Change(t.commitment, Find(current, t.commitment).value.scheme, t.scheme)
    decreases |targets|
  {
    hide Find;
    if targets != [] {
      var before, last := targets[..|targets| - 1], targets[|targets| - 1];
      assert targets == before + [last];
      ChangesAre(before, current);
    }
  }

  // ----- when unnamed schemes are refused -----

  /** The commitments that the account stores under another scheme than `scheme`. */
  function Differing(commitments: seq<Word>, current: seq<Signer>, scheme: Scheme): seq<Word> {
    if commitments == [] then []
    else
      var last := commitments[|commitments| - 1];
      Differing(commitments[..|commitments| - 1], current, scheme) +
      if Signer(last, Other(scheme)) in current then [last] else []
  }

  function AsChanges(commitments: seq<Word>, scheme: Scheme): seq<Change> {
    seq(|commitments|, i requires 0 <= i < |commitments| => Change(commitments[i], Other(scheme), scheme))
  }

  lemma {:induction false} UnnamedChanges(commitments: seq<Word>, current: seq<Signer>, scheme: Scheme)
    requires Distinct(Commitments(current))
    ensures Changes(Everyone(commitments, scheme), current) == AsChanges(Differing(commitments, current, scheme), scheme)
    decreases |commitments|
  {
    if commitments != [] {
      var before, last := commitments[..|commitments| - 1], commitments[|commitments| - 1];
      var target := Signer(last, scheme);
      UnnamedChanges(before, current, scheme);
      assert Everyone(commitments, scheme)[..|before|] == Everyone(before, scheme);
      assert Everyone(commitments, scheme)[|before|] == target;
      ChangedIff(target, current);
      AsChangesSnoc(Differing(before, current, scheme), last, scheme);
    }
  }

  lemma AsChangesSnoc(commitments: seq<Word>, last: Word, scheme: Scheme)
    ensures AsChanges(commitments + [last], scheme) == AsChanges(commitments, scheme) + [Change(last, Other(scheme), scheme)]
    ensures AsChanges(commitments + [], scheme) == AsChanges(commitments, scheme)
  {
    assert commitments + [] == commitments;
  }

  lemma ChangedIff(target: Signer, current: seq<Signer>)
    requires Distinct(Commitments(current))
    ensures Changed(target, current) <==> Signer(target.commitment, Other(target.scheme)) in current
  {
    var other := Signer(target.commitment, Other(target.scheme));
    if other in current {
      FindIs(current, other);
    }
  }

  /** On an account with distinct approvers, unnamed schemes are refused exactly
      when two kept approvers store different schemes, and the refusal lists the
      kept targets that differ from the first kept approver, in target order. */
  lemma UnnamedRefusedExactly(commitments: seq<Word>, current: seq<Signer>)
    requires Distinct(Commitments(current)) && current != []
    ensures
      var r := ResolveTargets(commitments, [], current);
      var differ := exists s, t | s in current && t in current :: s.commitment in commitments && t.commitment in commitments && s.scheme != t.scheme;
      && (r.Err? <==> differ)
      && (r.Err? ==>
            var kept := FirstKept(current, commitments).value.scheme;
            r.error == SchemeMismatch(AsChanges(Differing(commitments, current, kept), kept)))
      && (r.Ok? ==>
            && Commitments(r.value) == commitments
            && forall t | t in r.value :: t.scheme == if FirstKept(current, commitments).Some?
                                                      then FirstKept(current, commitments).value.scheme else current[0].scheme)
  {
    var kept := FirstKept(current, commitments);
    var scheme := KeptScheme(commitments, current).value;
    UnnamedChanges(commitments, current, scheme);
    DifferingIff(commitments, current, scheme);
    if kept.Some? {
      forall s | s in current && s.scheme != scheme
        ensures s == Signer(s.commitment, Other(scheme))
      {
      }
    }
    assert Commitments(Everyone(commitments, scheme)) == commitments;
  }

  lemma {:induction false} DifferingIff(commitments: seq<Word>, current: seq<Signer>, scheme: Scheme)
    ensures Differing(commitments, current, scheme) != [] <==>
            exists c | c in commitments :: Signer(c, Other(scheme)) in current
    decreases |commitments|
  {
    if commitments != [] {
      var before, last := commitments[..|commitments| - 1], commitments[|commitments| - 1];
      assert commitments == before + [last];
      DifferingIff(before, current, scheme);
    }
  }

  // ----- a proposal's strings -----

  predicate AllSchemes(names: seq<string>) {
    forall i | 0 <= i < |names| :: SchemeOf(names[i]).Some?
  }

  function SchemesOf(names: seq<string>): seq<Scheme>
    requires AllSchemes(names)
  {
    seq(|names|, i requires 0 <= i < |names| => SchemeOf(names[i]).value)
  }

  /** `ProposalMetadata::target_signers`, from the strings a proposal carries. */
  function TargetSigners(hexes: seq<string>, names: seq<string>, current: seq<Signer>): Result<seq<Signer>, SignerError> {
    if !IsCommitmentList(hexes) then Err(BadCommitments)
    else if !AllSchemes(names) then Err(BadSchemeName)
    else ResolveTargets(WordsOf(hexes), SchemesOf(names), current)
  }

  function Hexes(words: seq<Word>): seq<string> {
    seq(|words|, i requires 0 <= i < |words| => WordHex(words[i]))
  }

  function Names(schemes: seq<Scheme>): seq<string> {
    seq(|schemes|, i requires 0 <= i < |schemes| => Name(schemes[i]))
  }

  lemma WordsOfHexes(words: seq<Word>)
    ensures AllWords(Hexes(words)) && WordsOf(Hexes(words)) == words
  {
    hide WordHex, IsWordHex, WordOf;
    forall i | 0 <= i < |words|
      ensures IsWordHex(Hexes(words)[i]) && WordOf(Hexes(words)[i]) == words[i]
    {
      ReadsHex(words[i]);
    }
  }

  lemma ReadsHex(w: Word)
    ensures IsWordHex(WordHex(w)) && WordOf(WordHex(w)) == w
  {
    hide WordHex, WordOf;
    ParseOfWordHex(w);
  }

  lemma SchemesOfNames(schemes: seq<Scheme>)
    ensures AllSchemes(Names(schemes)) && SchemesOf(Names(schemes)) == schemes
  {
    hide SchemeOf, Name;
    forall i | 0 <= i < |schemes|
      ensures SchemeOf(Names(schemes)[i]) == Some(schemes[i])
    {
      SchemeOfName(schemes[i]);
    }
  }

  /** What the builders of add, remove and threshold proposals write: an admissible
      set (distinct, at least one signer) that keeps the stored schemes. */
  predicate Proposable(targets: seq<Signer>, current: seq<Signer>) {
    targets != [] && Distinct(Commitments(targets)) && KeepsStored(targets, current)
  }

  function Remaining(current: seq<Signer>, removed: Word): seq<Signer> {
    if current == [] then []
    else
      var last := current[|current| - 1];
      Remaining(current[..|current| - 1], removed) + if last.commitment != removed then [last] else []
  }

  lemma {:induction false} RemainingHolds(current: seq<Signer>, removed: Word)
    ensures forall s :: s in Remaining(current, removed) <==> s in current && s.commitment != removed
    decreases |current|
  {
    if current != [] {
      var before, last := current[..|current| - 1], current[|current| - 1];
      assert current == before + [last];
      RemainingHolds(before, removed);
    }
  }

  lemma DistinctSnoc(signers: seq<Signer>, last: Signer)
    ensures Distinct(Commitments(signers + [last])) <==>
            Distinct(Commitments(signers)) && forall s | s in signers :: s.commitment != last.commitment
  {
    var before, after := Commitments(signers), Commitments(signers + [last]);
    assert after == before + [last.commitment];
    assert forall i | 0 <= i < |signers| :: signers[i] in signers && before[i] == signers[i].commitment;
    if Distinct(after) {
      forall s | s in signers
        ensures s.commitment != last.commitment
      {
        var i :| 0 <= i < |signers| && signers[i] == s;
        assert after[i] != after[|signers|];
      }
      forall i, j | 0 <= i < j < |before|
        ensures before[i] != before[j]
      {
        assert after[i] == before[i] && after[j] == before[j];
      }
    }
  }

  lemma {:induction false} RemainingDistinct(current: seq<Signer>, removed: Word)
    requires Distinct(Commitments(current))
    ensures Distinct(Commitments(Remaining(current, removed)))
    decreases |current|
  {
    hide Distinct;
    if current == [] {
      assert Distinct(Commitments(Remaining(current, removed))) by {
        NoneDistinct();
      }
    } else {
      var before, last := current[..|current| - 1], current[|current| - 1];
      assert current == before + [last];
      DistinctSnoc(before, last);
      RemainingDistinct(before, removed);
      RemainingHolds(before, removed);
      DistinctSnoc(Remaining(before, removed), last);
      assert Remaining(before, removed) + [] == Remaining(before, removed);
    }
  }

  lemma NoneDistinct()
    ensures Distinct(Commitments([]))
  {
  }

  /** Adding a new signer, removing one of several and keeping them all are
      proposable on every account with distinct approvers. */
  lemma BuildersAreProposable(current: seq<Signer>, added: Signer, removed: Word)
    requires Distinct(Commitments(current))
    ensures added.commitment !in Commitments(current) ==> Proposable(current + [added], current)
    ensures Remaining(current, removed) != [] ==> Proposable(Remaining(current, removed), current)
    ensures current != [] ==> Proposable(current, current)
  {
    hide Changed;
    forall s | s in current
      ensures !Changed(s, current)
    {
      KeptIsUnchanged(current, s);
    }
    RemainingHolds(current, removed);
    RemainingDistinct(current, removed);
    if added.commitment !in Commitments(current) {
      NewIsUnchanged(current, added);
      assert Commitments(current + [added]) == Commitments(current) + [added.commitment];
    }
  }

  lemma KeptIsUnchanged(current: seq<Signer>, s: Signer)
    requires Distinct(Commitments(current)) && s in current
    ensures !Changed(s, current)
  {
    FindIs(current, s);
  }

  lemma NewIsUnchanged(current: seq<Signer>, s: Signer)
    requires s.commitment !in Commitments(current)
    ensures !Changed(s, current)
  {
  }

  /** Whatever the proposer's scheme, every reader of the account resolves the
      strings of such a proposal to exactly its targets. */
  lemma ProposalsReadBack(targets: seq<Signer>, proposer: Scheme, current: seq<Signer>)
    requires Proposable(targets, current)
    ensures
      var names := Names(WireSchemes(targets, proposer, current));
      TargetSigners(Hexes(Commitments(targets)), names, current) == Ok(targets)
  {
    hide WordHex, KeepsStored, ResolveTargets;
    WordsOfHexes(Commitments(targets));
    SchemesOfNames(WireSchemes(targets, proposer, current));
    ReaderUndoesWriter(targets, proposer, current);
  }

  // ----- the auth GUARDIAN registers -----

  datatype AuthType =
    | MidenFalconRpo(cosignerCommitments: seq<string>)
    | MidenEcdsa(cosignerCommitments: seq<string>)
    | Miden(cosigners: seq<(string, string)>, guardianScheme: string)

  /** `guardian_auth_config`. */
  function GuardianAuthConfig(cosigners: seq<Signer>, guardian: Scheme): AuthType {
    if forall s | s in cosigners :: s.scheme == guardian then
      var hexes := Hexes(Commitments(cosigners));
      if guardian.Falcon? then MidenFalconRpo(hexes) else MidenEcdsa(hexes)
    else
      Miden(CosignerStrings(cosigners), Name(guardian))
  }

  function CosignerStrings(cosigners: seq<Signer>): seq<(string, string)> {
    seq(|cosigners|, i requires 0 <= i < |cosigners| => (WordHex(cosigners[i].commitment), Name(cosigners[i].scheme)))
  }

  predicate ReadableCosigner(c: (string, string)) {
    IsWordHex(c.0) && SchemeOf(c.1).Some?
  }

  /** The decoder: schemes as the server reads them (crates/server/src/metadata/auth/mod.rs),
      commitments as words. */
  function ReadAuth(auth: AuthType): Option<(seq<Signer>, Scheme)> {
    match auth
    case MidenFalconRpo(hexes) =>
      if AllWords(hexes) then Some((Everyone(WordsOf(hexes), Falcon), Falcon)) else None
    case MidenEcdsa(hexes) =>
      if AllWords(hexes) then Some((Everyone(WordsOf(hexes), Ecdsa), Ecdsa)) else None
    case Miden(cosigners, guardian) =>
      if SchemeOf(guardian).Some? && AllReadable(cosigners) then Some((ReadCosigners(cosigners), SchemeOf(guardian).value))
      else None
  }

  predicate AllReadable(cosigners: seq<(string, string)>) {
    forall i | 0 <= i < |cosigners| :: ReadableCosigner(cosigners[i])
  }

  function ReadCosigners(cosigners: seq<(string, string)>): seq<Signer>
    requires AllReadable(cosigners)
  {
    seq(|cosigners|, i requires 0 <= i < |cosigners| => ReadCosigner(cosigners[i]))
  }

  function ReadCosigner(c: (string, string)): Signer
    requires ReadableCosigner(c)
  {
    Signer(WordOf(c.0), SchemeOf(c.1).value)
  }

  /** Nothing is lost, and the single-scheme form appears exactly when every
      cosigner uses the GUARDIAN's scheme. */
  lemma AuthConfigLosesNothing(cosigners: seq<Signer>, guardian: Scheme)
    ensures ReadAuth(GuardianAuthConfig(cosigners, guardian)) == Some((cosigners, guardian))
    ensures GuardianAuthConfig(cosigners, guardian).Miden? <==> exists s | s in cosigners :: s.scheme != guardian
  {
    hide WordHex, WordOf, IsWordHex, SchemeOf, Name;
    if forall s | s in cosigners :: s.scheme == guardian {
      WordsOfHexes(Commitments(cosigners));
      hide Hexes, WordsOf, AllWords;
      assert Everyone(Commitments(cosigners), guardian) == cosigners by {
        forall i | 0 <= i < |cosigners|
          ensures Everyone(Commitments(cosigners), guardian)[i] == cosigners[i]
        {
          assert cosigners[i] in cosigners;
        }
      }
    } else {
      SchemeOfName(guardian);
      CosignersReadBack(cosigners);
    }
  }

  lemma CosignersReadBack(cosigners: seq<Signer>)
    ensures AllReadable(CosignerStrings(cosigners)) && ReadCosigners(CosignerStrings(cosigners)) == cosigners
  {
    hide WordHex, Name, ReadableCosigner, ReadCosigner;
    forall i | 0 <= i < |cosigners|
      ensures ReadableCosigner(CosignerStrings(cosigners)[i]) && ReadCosigner(CosignerStrings(cosigners)[i]) == cosigners[i]
    {
      CosignerReadsBack(cosigners[i]);
    }
  }

  lemma CosignerReadsBack(s: Signer)
    ensures ReadableCosigner((WordHex(s.commitment), Name(s.scheme)))
    ensures ReadCosigner((WordHex(s.commitment), Name(s.scheme))) == s
  {
    hide WordHex, WordOf, IsWordHex, SchemeOf, Name;
    ReadsHex(s.commitment);
    SchemeOfName(s.scheme);
  }
}
