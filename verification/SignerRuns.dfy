/**
An account's approvers from creation through every signer update
(crates/contracts/src/multisig_guardian.rs; account.rs, proposal.rs and signers.rs
of crates/miden-multisig-client/src).

Creation validates a configuration. Each update resolves the strings of some
proposal against the approvers the account stores, writes the result to the
account's indexed maps, and the next reader reads those maps back.
*/
module SignerRuns {
  import opened Wrappers
  import opened Words
  import opened Signers

  // ----- creation -----

  const U32_BOUND: nat := 0x1_0000_0000

  type U32 = x: int | 0 <= x < U32_BOUND

  datatype Config = Config(threshold: U32, commitments: seq<Word>, guardian: Word, scheme: Scheme,
                           schemes: seq<Scheme>, overrides: seq<(Word, U32)>)

  datatype ConfigError =
    | ZeroThreshold
    | NoSigners
    | SchemeCountMismatch
    | DuplicateSigner(index: nat)
    | ThresholdTooHigh
    | GuardianIsSigner
    | OverrideTooLow(index: nat)
    | OverrideTooHigh(index: nat)
    | DuplicateOverride(index: nat)

  /** `len() as u32`. */
  function Count(s: seq<Word>): U32 {
    |s| % U32_BOUND
  }

  function Roots(overrides: seq<(Word, U32)>): (r: seq<Word>)
    ensures |r| == |overrides|
  {
    seq(|overrides|, i requires 0 <= i < |overrides| => overrides[i].0)
  }

  predicate ValidOverrides(c: Config, n: nat)
    requires n <= |c.overrides|
  {
    && Distinct(Roots(c.overrides[..n]))
    && forall i | 0 <= i < n :: 1 <= c.overrides[i].1 <= Count(c.commitments)
  }

  predicate ValidConfig(c: Config) {
    && 1 <= c.threshold <= Count(c.commitments)
    && c.commitments != [] && Distinct(c.commitments) && c.guardian !in c.commitments
    && (c.schemes == [] || |c.schemes| == |c.commitments|)
    && ValidOverrides(c, |c.overrides|)
  }

  /** The shape of a configuration, as far as the first three checks go. */
  predicate Shaped(c: Config) {
    c.threshold != 0 && c.commitments != [] && (c.schemes == [] || |c.schemes| == |c.commitments|)
  }

  /** `validate_config`: the error is that of the first check that fails. */
  method ValidateConfig(c: Config) returns (r: Option<ConfigError>)
    ensures r.None? <==> ValidConfig(c)
    ensures r == Some(ZeroThreshold) <==> c.threshold == 0
    ensures r == Some(NoSigners) <==> c.threshold != 0 && c.commitments == []
    ensures r == Some(SchemeCountMismatch) <==>
              c.threshold != 0 && c.commitments != [] && c.schemes != [] && |c.schemes| != |c.commitments|
    ensures (r.Some? && r.value.DuplicateSigner?) <==> Shaped(c) && !Distinct(c.commitments)
    ensures r.Some? && r.value.DuplicateSigner? ==>
              r.value.index < |c.commitments| && Distinct(c.commitments[..r.value.index]) &&
              c.commitments[r.value.index] in c.commitments[..r.value.index]
    ensures r == Some(ThresholdTooHigh) <==> Shaped(c) && Distinct(c.commitments) && c.threshold > Count(c.commitments)
    ensures r == Some(GuardianIsSigner) <==>
              Shaped(c) && Distinct(c.commitments) && c.threshold <= Count(c.commitments) && c.guardian in c.commitments
    ensures r.Some? && (r.value.OverrideTooLow? || r.value.OverrideTooHigh? || r.value.DuplicateOverride?) ==>
              r.value.index < |c.overrides| && ValidOverrides(c, r.value.index) && !ValidOverrides(c, r.value.index + 1)
  {
    if c.threshold == 0 {
      return Some(ZeroThreshold);
    }
    if c.commitments == [] {
      return Some(NoSigners);
    }
    if c.schemes != [] && |c.schemes| != |c.commitments| {
      return Some(SchemeCountMismatch);
    }
    var seen: set<Word> := {};
    for i := 0 to |c.commitments|
      invariant Distinct(c.commitments[..i])
      invariant seen == set j | 0 <= j < i :: c.commitments[j]
    {
      if c.commitments[i] in seen {
        assert c.commitments[i] in c.commitments[..i];
        return Some(DuplicateSigner(i));
      }
      seen := seen + {c.commitments[i]};
    }
    assert c.commitments[..|c.commitments|] == c.commitments;
    if c.threshold > Count(c.commitments) {
      return Some(ThresholdTooHigh);
    }
    if c.guardian in seen {
      return Some(GuardianIsSigner);
    }
    r := ValidateOverrides(c);
  }

  method ValidateOverrides(c: Config) returns (r: Option<ConfigError>)
    ensures r.None? <==> ValidOverrides(c, |c.overrides|)
    ensures r.Some? ==> (r.value.OverrideTooLow? || r.value.OverrideTooHigh? || r.value.DuplicateOverride?) &&
                        r.value.index < |c.overrides| &&
                        ValidOverrides(c, r.value.index) && !ValidOverrides(c, r.value.index + 1)
  {
    var seen: set<Word> := {};
    for i := 0 to |c.overrides|
      invariant ValidOverrides(c, i)
      invariant seen == set j | 0 <= j < i :: c.overrides[j].0
    {
      OverridesStep(c, i);
      if c.overrides[i].1 < 1 {
        return Some(OverrideTooLow(i));
      }
      if c.overrides[i].1 > Count(c.commitments) {
        return Some(OverrideTooHigh(i));
      }
      if c.overrides[i].0 in seen {
        return Some(DuplicateOverride(i));
      }
      seen := seen + {c.overrides[i].0};
    }
    return None;
  }

  lemma OverridesStep(c: Config, n: nat)
    requires n < |c.overrides|
    ensures ValidOverrides(c, n + 1) <==>
            && ValidOverrides(c, n)
            && 1 <= c.overrides[n].1 <= Count(c.commitments)
            && forall j | 0 <= j < n :: c.overrides[j].0 != c.overrides[n].0
    ensures !ValidOverrides(c, n + 1) ==> !ValidOverrides(c, |c.overrides|)
  {
    var before, after := Roots(c.overrides[..n]), Roots(c.overrides[..n + 1]);
    assert after == before + [c.overrides[n].0];
    assert forall j | 0 <= j < n :: after[j] == before[j] == c.overrides[j].0;
    if Distinct(after) {
      forall j | 0 <= j < n
        ensures c.overrides[j].0 != c.overrides[n].0
      {
        assert after[j] != after[n];
      }
    }
    var all := Roots(c.overrides[..|c.overrides|]);
    assert forall j | 0 <= j <= n :: all[j] == after[j];
  }

  /** The approvers a configuration creates, each under its `signer_scheme`. */
  function Approvers(c: Config): (r: seq<Signer>)
    ensures Commitments(r) == c.commitments
  {
    seq(|c.commitments|, i requires 0 <= i < |c.commitments| =>
      Signer(c.commitments[i], if i < |c.schemes| then c.schemes[i] else c.scheme))
  }

  // ----- storage -----

  const ECDSA_ID: Felt := 1
  const FALCON_ID: Felt := 2

  function SchemeId(s: Scheme): Felt {
    if s.Falcon? then FALCON_ID else ECDSA_ID
  }

  /** `from_auth_scheme_id`. */
  function SchemeOfId(id: Felt): Option<Scheme> {
    if id == FALCON_ID then Some(Falcon) else if id == ECDSA_ID then Some(Ecdsa) else None
  }

  datatype Storage = Storage(pubkeys: map<nat, Word>, schemes: map<nat, Word>)

  /** A missing entry reads as the zero word. */
  function Item(m: map<nat, Word>, index: nat): Word {
    if index in m then m[index] else ZERO
  }

  /** The words at 0, 1, ... up to the first zero word, at most `max`. */
  function IndexedWords(m: map<nat, Word>, max: nat): (words: seq<Word>)
    ensures |words| <= max
    ensures forall i | 0 <= i < |words| :: words[i] == Item(m, i) && words[i] != ZERO
    ensures |words| < max ==> Item(m, |words|) == ZERO
  {
    if max == 0 then []
    else
      var words := IndexedWords(m, max - 1);
      if |words| == max - 1 && Item(m, max - 1) != ZERO then words + [Item(m, max - 1)] else words
  }

  lemma IndexedWordsAre(m: map<nat, Word>, max: nat, words: seq<Word>)
    requires |words| <= max
    requires forall i | 0 <= i < |words| :: words[i] == Item(m, i) && words[i] != ZERO
    requires |words| < max ==> Item(m, |words|) == ZERO
    ensures words == IndexedWords(m, max)
  {
    var read := IndexedWords(m, max);
    hide IndexedWords;
  }

  /** `extract_indexed_map_words`. */
  method ExtractIndexedMapWords(m: map<nat, Word>, max: nat) returns (words: seq<Word>)
    ensures words == IndexedWords(m, max)
  {
    words := [];
    var index := 0;
    while index < max
      invariant index <= max && |words| == index
      invariant forall i | 0 <= i < index :: words[i] == Item(m, i) && words[i] != ZERO
    {
      var value := Item(m, index);
      if value == ZERO {
        break;
      }
      words := words + [value];
      index := index + 1;
    }
    IndexedWordsAre(m, max, words);
  }

  function SchemeAt(st: Storage, index: nat): Option<Scheme> {
    SchemeOfId(Item(st.schemes, index)[0])
  }

  /** `cosigners`: fails at the first approver without a supported scheme. */
  function Cosigners(st: Storage, max: nat): Result<seq<Signer>, nat> {
    CosignersUpTo(st, IndexedWords(st.pubkeys, max))
  }

  function CosignersUpTo(st: Storage, words: seq<Word>): Result<seq<Signer>, nat> {
    if words == [] then Ok([])
    else
      var before :- CosignersUpTo(st, words[..|words| - 1]);
      var scheme := SchemeAt(st, |words| - 1);
      if scheme.Some? then Ok(before + [Signer(words[|words| - 1], scheme.value)]) else Err(|words| - 1)
  }

  /** What an update writes. */
  function Written(signers: seq<Signer>): Storage {
    Storage(map i: nat | i < |signers| :: signers[i].commitment,
            map i: nat | i < |signers| :: SchemeWord(signers[i].scheme))
  }

  function SchemeWord(s: Scheme): Word {
    [SchemeId(s), 0, 0, 0]
  }

  lemma {:induction false} WrittenCosigners(signers: seq<Signer>, words: seq<Word>)
    requires |words| <= |signers| && forall i | 0 <= i < |words| :: words[i] == signers[i].commitment
    ensures CosignersUpTo(Written(signers), words) == Ok(signers[..|words|])
    decreases |words|
  {
    if words != [] {
      WrittenCosigners(signers, words[..|words| - 1]);
      assert signers[..|words|] == signers[..|words| - 1] + [signers[|words| - 1]];
    }
  }

  /** Reading back a written list gives a prefix of it: the whole list exactly when
      it holds no zero word and fits, and nothing exactly when it starts with one. */
  lemma ReadBack(signers: seq<Signer>, max: nat) returns (n: nat)
    requires max > 0
    ensures n <= |signers| && Cosigners(Written(signers), max) == Ok(signers[..n])
    ensures n == |signers| <==> |signers| <= max && ZERO !in Commitments(signers)
    ensures n == 0 <==> signers == [] || signers[0].commitment == ZERO
    ensures n < |signers| && n < max ==> signers[n].commitment == ZERO
  {
    hide CosignersUpTo;
    var m := Written(signers).pubkeys;
    var words := IndexedWords(m, max);
    n := |words|;
    hide IndexedWords;
    assert Item(m, |signers|) == ZERO;
    forall i | 0 <= i < n
      ensures words[i] == signers[i].commitment
    {
      assert words[i] == Item(m, i);
    }
    WrittenCosigners(signers, words);
    forall i | 0 <= i < |signers|
      ensures Commitments(signers)[i] == Item(m, i)
    {
    }
    if n < |signers| && n < max {
      assert Commitments(signers)[n] == ZERO;
    }
  }

  /** The approvers a reader finds in a newly created account. */
  function Created(c: Config, max: nat): seq<Signer> {
    var read := Cosigners(Written(Approvers(c)), max);
    if read.Ok? then read.value else []
  }

  /** They are the configured signers up to the first zero word or the maximum, in
      order and each under its own scheme where one each is named, else under the
      account's. */
  lemma CreationReadsBack(c: Config, max: nat) returns (n: nat)
    requires ValidConfig(c) && max > 0
    ensures n <= |c.commitments| && Commitments(Created(c, max)) == c.commitments[..n]
    ensures c.schemes != [] ==> Schemes(Created(c, max)) == c.schemes[..n]
    ensures c.schemes == [] ==> forall s | s in Created(c, max) :: s.scheme == c.scheme
    ensures n == |c.commitments| <==> |c.commitments| <= max && ZERO !in c.commitments
    ensures n == 0 <==> c.commitments[0] == ZERO
  {
    hide ValidOverrides, Cosigners, Written;
    n := ReadBack(Approvers(c), max);
    assert Created(c, max) == Approvers(c)[..n];
    if c.schemes != [] {
      assert forall i | 0 <= i < n :: Schemes(Created(c, max))[i] == c.schemes[i];
    }
  }

  lemma CreatedDistinct(c: Config, max: nat)
    requires ValidConfig(c) && max > 0
    ensures Distinct(Commitments(Created(c, max)))
    ensures Created(c, max) == [] <==> c.commitments[0] == ZERO
  {
    hide ValidOverrides, Created;
    var n := CreationReadsBack(c, max);
    assert |Commitments(Created(c, max))| == n;
    assert forall i | 0 <= i < n :: c.commitments[..n][i] == c.commitments[i];
  }

  // ----- runs of updates -----

  /** The strings of an update-signers proposal. */
  datatype Update = Update(hexes: seq<string>, names: seq<string>)

  /** The set an update writes, if it is accepted: it resolves, and names at least
      one signer as `to_transaction_type` requires. */
  function Accepted(u: Update, current: seq<Signer>): Option<seq<Signer>> {
    var targets := TargetSigners(u.hexes, u.names, current);
    if targets.Ok? && targets.value != [] then Some(targets.value) else None
  }

  /** The approvers a reader sees after the update. */
  function After(current: seq<Signer>, u: Update, max: nat): seq<Signer> {
    var written := Accepted(u, current);
    if written.None? then current
    else
      var read := Cosigners(Written(written.value), max);
      if read.Ok? then read.value else []
  }

  function AfterAll(first: seq<Signer>, us: seq<Update>, max: nat): seq<Signer> {
    if us == [] then first else After(AfterAll(first, us[..|us| - 1], max), us[|us| - 1], max)
  }

  lemma AcceptedIs(u: Update, current: seq<Signer>)
    requires Accepted(u, current).Some?
    ensures
      var targets := Accepted(u, current).value;
      && targets != [] && Distinct(Commitments(targets)) && KeepsStored(targets, current)
      && AllWords(u.hexes) && Commitments(targets) == WordsOf(u.hexes)
  {
    hide IsWordHex, WordOf, SchemeOf, Changed;
    var words, schemes := WordsOf(u.hexes), SchemesOf(u.names);
    var targets := Accepted(u, current).value;
    NoChangesIff(targets, current);
    assert Commitments(targets) == words;
  }

  /** The scheme stored for a commitment. */
  function SchemeFor(signers: seq<Signer>, commitment: Word): Option<Scheme> {
    var s := Find(signers, commitment);
    if s.Some? then Some(s.value.scheme) else None
  }

  /** An update keeps the commitments distinct and the scheme of every approver it
      keeps; it leaves a reader with none exactly when it writes the zero word first. */
  lemma UpdateKeeps(current: seq<Signer>, u: Update, max: nat, c: Word)
    requires max > 0 && Distinct(Commitments(current))
    ensures
      var after := After(current, u, max);
      && Distinct(Commitments(after))
      && (SchemeFor(current, c).Some? && SchemeFor(after, c).Some? ==> SchemeFor(after, c) == SchemeFor(current, c))
      && (current != [] ==> (after == [] <==> WritesZeroFirst(u, current)))
  {
    if Accepted(u, current).Some? {
      AcceptedIs(u, current);
      var targets := Accepted(u, current).value;
      var n := ReadBack(targets, max);
      hide Accepted, Written, Cosigners;
      PrefixKeeps(targets, n, current, c);
      FirstWritten(u, targets);
    }
  }

  lemma FirstWritten(u: Update, targets: seq<Signer>)
    requires targets != [] && AllWords(u.hexes) && Commitments(targets) == WordsOf(u.hexes)
    ensures u.hexes != [] && (targets[0].commitment == ZERO <==> ParseWord(u.hexes[0]) == Ok(ZERO))
  {
    assert |u.hexes| == |WordsOf(u.hexes)| == |targets|;
    assert Commitments(targets)[0] == targets[0].commitment;
    assert WordsOf(u.hexes)[0] == WordOf(u.hexes[0]);
    assert IsWordHex(u.hexes[0]);
    WordHexParses(u.hexes[0]);
  }

  lemma WordHexParses(s: string)
    requires IsWordHex(s)
    ensures ParseWord(s) == Ok(WordOf(s))
  {
  }

  lemma PrefixKeeps(targets: seq<Signer>, n: nat, current: seq<Signer>, c: Word)
    requires n <= |targets| && Distinct(Commitments(targets)) && KeepsStored(targets, current)
    ensures Distinct(Commitments(targets[..n]))
    ensures SchemeFor(current, c).Some? && SchemeFor(targets[..n], c).Some? ==>
              SchemeFor(targets[..n], c) == SchemeFor(current, c)
  {
    var after := targets[..n];
    assert forall i | 0 <= i < n :: Commitments(after)[i] == Commitments(targets)[i];
    var kept := Find(after, c);
    if kept.Some? {
      assert kept.value in targets;
      assert !Changed(kept.value, current);
    }
  }

  /** An accepted update whose first string spells the zero word. */
  predicate WritesZeroFirst(u: Update, current: seq<Signer>) {
    Accepted(u, current).Some? && u.hexes != [] && ParseWord(u.hexes[0]) == Ok(ZERO)
  }

  lemma AfterAllStep(first: seq<Signer>, us: seq<Update>, max: nat, i: nat)
    requires i < |us|
    ensures AfterAll(first, us[..i + 1], max) == After(AfterAll(first, us[..i], max), us[i], max)
  {
    assert us[..i + 1][..i] == us[..i];
  }

  lemma {:induction false} RunStaysDistinct(first: seq<Signer>, us: seq<Update>, max: nat, i: nat)
    requires max > 0 && Distinct(Commitments(first)) && i <= |us|
    ensures Distinct(Commitments(AfterAll(first, us[..i], max)))
  {
    if i > 0 {
      hide After;
      RunStaysDistinct(first, us, max, i - 1);
      AfterAllStep(first, us, max, i - 1);
      UpdateKeeps(AfterAll(first, us[..i - 1], max), us[i - 1], max, ZERO);
    }
  }

  /** Whether a reader finds the approver after `k` updates. */
  predicate PresentAfter(first: seq<Signer>, us: seq<Update>, max: nat, c: Word, k: nat)
    requires k <= |us|
  {
    SchemeFor(AfterAll(first, us[..k], max), c).Some?
  }

  lemma {:induction false} PresentKeepsItsScheme(first: seq<Signer>, us: seq<Update>, max: nat, c: Word, i: nat, j: nat)
    requires max > 0 && Distinct(Commitments(first)) && i <= j <= |us|
    requires forall k | i <= k <= j :: PresentAfter(first, us, max, c, k)
    ensures SchemeFor(AfterAll(first, us[..i], max), c) == SchemeFor(AfterAll(first, us[..j], max), c)
    decreases j
  {
    hide After, AfterAll, Distinct, Find;
    if i < j {
      PresentKeepsItsScheme(first, us, max, c, i, j - 1);
      RunStaysDistinct(first, us, max, j - 1);
      AfterAllStep(first, us, max, j - 1);
      assert PresentAfter(first, us, max, c, j - 1) && PresentAfter(first, us, max, c, j);
      UpdateKeeps(AfterAll(first, us[..j - 1], max), us[j - 1], max, c);
    }
  }

  /** In every run of updates of a validated account, whatever strings they carry:
      the commitments a reader finds stay pairwise distinct, and an approver found all
      along keeps its scheme. */
  lemma NeverRemovedKeepsItsScheme(config: Config, us: seq<Update>, max: nat, c: Word, i: nat, j: nat)
    requires ValidConfig(config) && max > 0 && i <= j <= |us|
    requires forall k | i <= k <= j :: PresentAfter(Created(config, max), us, max, c, k)
    ensures Distinct(Commitments(AfterAll(Created(config, max), us[..j], max)))
    ensures SchemeFor(AfterAll(Created(config, max), us[..i], max), c) == SchemeFor(AfterAll(Created(config, max), us[..j], max), c)
  {
    hide After, AfterAll, Created, ValidConfig, Distinct, Find;
    CreatedDistinct(config, max);
    RunStaysDistinct(Created(config, max), us, max, j);
    PresentKeepsItsScheme(Created(config, max), us, max, c, i, j);
  }

  predicate ZeroFirstAt(first: seq<Signer>, us: seq<Update>, max: nat, k: nat)
    requires k < |us|
  {
    WritesZeroFirst(us[k], AfterAll(first, us[..k], max))
  }

  predicate EmptyAfter(first: seq<Signer>, us: seq<Update>, max: nat, k: nat)
    requires k <= |us|
  {
    AfterAll(first, us[..k], max) == []
  }

  lemma EmptyStep(first: seq<Signer>, us: seq<Update>, max: nat, k: nat)
    requires max > 0 && Distinct(Commitments(first)) && k < |us| && !EmptyAfter(first, us, max, k)
    ensures EmptyAfter(first, us, max, k + 1) <==> ZeroFirstAt(first, us, max, k)
  {
    hide After, WritesZeroFirst;
    RunStaysDistinct(first, us, max, k);
    AfterAllStep(first, us, max, k);
    UpdateKeeps(AfterAll(first, us[..k], max), us[k], max, ZERO);
  }

  ghost predicate NeverEmpty(first: seq<Signer>, us: seq<Update>, max: nat, n: nat)
    requires n <= |us|
  {
    forall k: nat | k <= n :: !EmptyAfter(first, us, max, k)
  }

  ghost predicate NeverZeroFirst(first: seq<Signer>, us: seq<Update>, max: nat, n: nat)
    requires n <= |us|
  {
    forall k: nat | k < n :: !ZeroFirstAt(first, us, max, k)
  }

  /** A reader finds approvers throughout exactly when the configuration does not start
      with the zero word and no accepted update does. */
  lemma StaysNonEmpty(config: Config, us: seq<Update>, max: nat)
    requires ValidConfig(config) && max > 0
    ensures NeverEmpty(Created(config, max), us, max, |us|) <==>
            config.commitments[0] != ZERO && NeverZeroFirst(Created(config, max), us, max, |us|)
  {
    hide NeverZeroFirst, ValidOverrides, Created, EmptyAfter;
    var first := Created(config, max);
    CreatedDistinct(config, max);
    if first != [] {
      NonEmptyUpTo(first, us, max, |us|);
    } else {
      EmptyStart(first, us, max);
    }
  }

  /** Both conditions are needed. A validated configuration may start with the zero
      word, and then nobody is found from the start. */
  lemma ConfigCanHideEveryone(w: Word, guardian: Word, max: nat)
    requires w != ZERO && guardian != ZERO && guardian != w && max > 0
    ensures
      var c := Config(1, [ZERO, w], guardian, Falcon, [], []);
      ValidConfig(c) && Created(c, max) == []
  {
    var c := Config(1, [ZERO, w], guardian, Falcon, [], []);
    assert Roots(c.overrides[..0]) == [];
    assert ValidConfig(c);
    hide Created, ValidOverrides;
    CreatedDistinct(c, max);
  }

  /** And an account with an approver accepts an update after which nobody is found. */
  lemma UpdateCanHideEveryone(w: Word, guardian: Word, max: nat)
    requires w != ZERO && guardian != w && max > 0
    ensures
      var c := Config(1, [w], guardian, Falcon, [], []);
      var targets := [Signer(ZERO, Falcon), Signer(w, Falcon)];
      var first := Created(c, max);
      var u := Update(Hexes(Commitments(targets)), Names(WireSchemes(targets, Falcon, first)));
      ValidConfig(c) && first == [Signer(w, Falcon)] && After(first, u, max) == []
  {
    var c := Config(1, [w], guardian, Falcon, [], []);
    assert Roots(c.overrides[..0]) == [];
    assert ValidConfig(c);
    hide ValidOverrides, Created, WordHex, IsWordHex, WordOf, SchemeOf, Name;
    CreatesOne(c, w, max);
    var first := Created(c, max);
    var targets := [Signer(ZERO, Falcon), Signer(w, Falcon)];
    ZeroIsProposable(w);
    ProposalsReadBack(targets, Falcon, first);
    hide TargetSigners, WireSchemes, Cosigners, Written;
    var n := ReadBack(targets, max);
    assert targets[0].commitment == ZERO;
  }

  lemma CreatesOne(c: Config, w: Word, max: nat)
    requires ValidConfig(c) && c.commitments == [w] && c.schemes == [] && c.scheme == Falcon && w != ZERO && max > 0
    ensures Created(c, max) == [Signer(w, Falcon)]
  {
    hide ValidOverrides, Created;
    var n := CreationReadsBack(c, max);
    var first := Created(c, max);
    assert n == 1 && |Commitments(first)| == 1;
    assert Commitments(first)[0] == first[0].commitment == w;
    assert first[0] in first;
  }

  lemma ZeroIsProposable(w: Word)
    requires w != ZERO
    ensures Proposable([Signer(ZERO, Falcon), Signer(w, Falcon)], [Signer(w, Falcon)])
  {
    var current, targets := [Signer(w, Falcon)], [Signer(ZERO, Falcon), Signer(w, Falcon)];
    assert Commitments(targets) == [ZERO, w];
    assert Find(current, w) == Some(Signer(w, Falcon));
    assert current[1..] == [];
    assert Find(current, ZERO) == None;
  }

  lemma {:induction false} NonEmptyUpTo(first: seq<Signer>, us: seq<Update>, max: nat, n: nat)
    requires first != [] && Distinct(Commitments(first)) && max > 0 && n <= |us|
    ensures NeverEmpty(first, us, max, n) <==> NeverZeroFirst(first, us, max, n)
    decreases n
  {
    hide ZeroFirstAt, EmptyAfter, Distinct;
    if n == 0 {
      EmptyStart(first, us, max);
    } else {
      NonEmptyUpTo(first, us, max, n - 1);
      if !EmptyAfter(first, us, max, n - 1) {
        EmptyStep(first, us, max, n - 1);
      }
      assert NeverEmpty(first, us, max, n) <==> NeverEmpty(first, us, max, n - 1) && !EmptyAfter(first, us, max, n);
      assert NeverZeroFirst(first, us, max, n) <==> NeverZeroFirst(first, us, max, n - 1) && !ZeroFirstAt(first, us, max, n - 1);
    }
  }

  lemma EmptyStart(first: seq<Signer>, us: seq<Update>, max: nat)
    ensures EmptyAfter(first, us, max, 0) <==> first == []
  {
    assert us[..0] == [];
  }
}
