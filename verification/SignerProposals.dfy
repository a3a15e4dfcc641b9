/**
Proposals that change the signers or the threshold
(crates/miden-multisig-client/src/transaction/builder.rs).

A builder derives the target signers from the approvers it reads and refuses what the
account's auth procedure would reject. Executing the proposal writes the targets, and
the next builder reads them back.
*/
module SignerProposals {
  import opened Wrappers
  import opened Words
  import opened Signers
  import opened SignerRuns

  datatype SignerSetError = TooManySigners | RepeatedSigner(index: nat) | GuardianAmongSigners

  predicate Admissible(words: seq<Word>, guardian: Word, max: nat) {
    |words| <= max && Distinct(words) && guardian !in words
  }

  /** `ensure_admissible_signer_set`. */
  method EnsureAdmissibleSignerSet(words: seq<Word>, guardian: Word, max: nat) returns (r: Option<SignerSetError>)
    ensures r.None? <==> Admissible(words, guardian, max)
    ensures r.Some? ==>
      match r.value
      case TooManySigners => |words| > max
      case RepeatedSigner(i) => |words| <= max && i < |words| && Distinct(words[..i]) && words[i] in words[..i]
      case GuardianAmongSigners => |words| <= max && Distinct(words) && guardian in words
  {
    if |words| > max {
      return Some(TooManySigners);
    }
    var seen: set<Word> := {};
    for i := 0 to |words|
      invariant Distinct(words[..i]) && seen == set w | w in words[..i]
    {
      assert words[..i + 1] == words[..i] + [words[i]];
      if words[i] in seen {
        var j :| 0 <= j < i && words[..i][j] == words[i];
        assert words[j] == words[i];
        return Some(RepeatedSigner(i));
      }
      seen := seen + {words[i]};
    }
    assert words[..|words|] == words;
    if guardian in words {
      return Some(GuardianAmongSigners);
    }
    return None;
  }

  /** What a builder reads: the approvers, the threshold and the GUARDIAN key. */
  datatype Account = Account(signers: seq<Signer>, threshold: nat, guardian: Word)

  datatype Request = Add(signer: Signer) | Remove(commitment: Word) | ChangeThreshold(requested: seq<Word>, threshold: nat)

  datatype Plan = Plan(targets: seq<Signer>, threshold: nat)

  datatype BuildError = NotAdmissible | NotFound | LastSigner | OtherSigners | OutOfRange | SameThreshold

  /** The targets and threshold a builder proposes. The requested signers of a
      threshold change are compared sorted, so as multisets. */
  function Build(a: Account, request: Request, max: nat): Result<Plan, BuildError> {
    match request
    case Add(signer) =>
      var targets := a.signers + [signer];
      if Admissible(Commitments(targets), a.guardian, max) then Ok(Plan(targets, a.threshold)) else Err(NotAdmissible)
    case Remove(commitment) =>
      var targets := Remaining(a.signers, commitment);
      if |targets| == |a.signers| then Err(NotFound)
      else if targets == [] then Err(LastSigner)
      else Ok(Plan(targets, if a.threshold <= |targets| then a.threshold else |targets|))
    case ChangeThreshold(requested, threshold) =>
      if multiset(requested) != multiset(Commitments(a.signers)) then Err(OtherSigners)
      else if threshold < 1 || threshold > |a.signers| then Err(OutOfRange)
      else if threshold == a.threshold then Err(SameThreshold)
      else Ok(Plan(a.signers, threshold))
  }

  /** The account can authenticate: an admissible set without the zero word, and a
      threshold its approvers can reach. */
  predicate Sound(a: Account, max: nat) {
    && Admissible(Commitments(a.signers), a.guardian, max)
    && ZERO !in Commitments(a.signers)
    && 1 <= a.threshold <= |a.signers|
  }

  // ----- one proposal -----

  lemma AddAdmissible(a: Account, signer: Signer, max: nat)
    requires Sound(a, max)
    ensures Admissible(Commitments(a.signers + [signer]), a.guardian, max) <==>
            |a.signers| < max && signer.commitment !in Commitments(a.signers) && signer.commitment != a.guardian
  {
    var before, after := Commitments(a.signers), Commitments(a.signers + [signer]);
    assert after == before + [signer.commitment];
    if signer.commitment in before {
      var i :| 0 <= i < |before| && before[i] == signer.commitment;
      assert after[i] == after[|before|];
    }
  }

  lemma {:induction false} RemainingCount(current: seq<Signer>, removed: Word)
    requires Distinct(Commitments(current))
    ensures |Remaining(current, removed)| == |current| - if removed in Commitments(current) then 1 else 0
    decreases |current|
  {
    hide Distinct;
    if current != [] {
      var before, last := current[..|current| - 1], current[|current| - 1];
      assert current == before + [last];
      DistinctSnoc(before, last);
      RemainingCount(before, removed);
      assert Commitments(current) == Commitments(before) + [last.commitment];
    }
  }

  /** What is refused on a sound account: a signer that is there already, is the
      GUARDIAN or does not fit; removing a stranger or the last signer; a threshold
      change that names other signers, is out of range or changes nothing. */
  lemma RefusedExactlyWhen(a: Account, request: Request, max: nat)
    requires Sound(a, max)
    ensures Build(a, request, max).Err? <==>
      match request
      case Add(s) => |a.signers| == max || s.commitment in Commitments(a.signers) || s.commitment == a.guardian
      case Remove(w) => w !in Commitments(a.signers) || |a.signers| == 1
      case ChangeThreshold(words, t) =>
        multiset(words) != multiset(Commitments(a.signers)) || !(1 <= t <= |a.signers|) || t == a.threshold
  {
    match request
    case Add(s) => AddAdmissible(a, s, max);
    case Remove(w) =>
      hide Remaining;
      RemainingCount(a.signers, w);
    case ChangeThreshold(_, _) =>
  }

  /** What is proposed is admissible, keeps the stored schemes and has a threshold
      its signers can reach. */
  lemma PlanIsSound(a: Account, request: Request, max: nat)
    requires Sound(a, max) && Build(a, request, max).Ok?
    ensures
      var plan := Build(a, request, max).value;
      && Admissible(Commitments(plan.targets), a.guardian, max)
      && Proposable(plan.targets, a.signers)
      && 1 <= plan.threshold <= |plan.targets|
  {
    hide Remaining, Distinct, KeepsStored;
    match request
    case Add(s) =>
      AddAdmissible(a, s, max);
      BuildersAreProposable(a.signers, s, ZERO);
    case Remove(w) =>
      BuildersAreProposable(a.signers, a.signers[0], w);
      RemainingCount(a.signers, w);
      RemainingAvoids(a.signers, w, a.guardian);
    case ChangeThreshold(_, _) =>
      BuildersAreProposable(a.signers, a.signers[0], ZERO);
  }

  lemma RemainingAvoids(current: seq<Signer>, removed: Word, word: Word)
    requires word !in Commitments(current)
    ensures word !in Commitments(Remaining(current, removed))
  {
    hide Remaining;
    RemainingHolds(current, removed);
    var rest := Remaining(current, removed);
    forall i | 0 <= i < |rest|
      ensures Commitments(rest)[i] != word
    {
      assert rest[i] in current;
      var j :| 0 <= j < |current| && current[j] == rest[i];
      assert Commitments(current)[j] != word;
    }
  }

  // ----- whole runs -----

  /** The account after a request: the plan written and read back, or nothing. */
  function Executed(a: Account, request: Request, max: nat): Account {
    var plan := Build(a, request, max);
    if plan.Err? then a
    else
      var read := Cosigners(Written(plan.value.targets), max);
      Account(if read.Ok? then read.value else [], plan.value.threshold, a.guardian)
  }

  /** A reader finds the targets, but for the zero word, which it takes for the end. */
  lemma ReadsTheTargets(a: Account, request: Request, max: nat)
    requires Sound(a, max) && Build(a, request, max).Ok?
    ensures
      var plan := Build(a, request, max).value;
      Executed(a, request, max).signers ==
      if request.Add? && request.signer.commitment == ZERO then a.signers else plan.targets
  {
    hide Remaining, Distinct, Cosigners, Written;
    var targets := Build(a, request, max).value.targets;
    PlanIsSound(a, request, max);
    var n := ReadBack(targets, max);
    if request.Add? && request.signer.commitment == ZERO {
      assert Commitments(targets)[|a.signers|] == ZERO;
      assert forall i | 0 <= i < |a.signers| :: Commitments(a.signers)[i] == targets[i].commitment;
      assert targets[..n] == a.signers;
    } else {
      TargetsAvoidZero(a, request, max);
      assert targets[..n] == targets;
    }
  }

  lemma TargetsAvoidZero(a: Account, request: Request, max: nat)
    requires Sound(a, max) && Build(a, request, max).Ok? && !(request.Add? && request.signer.commitment == ZERO)
    ensures ZERO !in Commitments(Build(a, request, max).value.targets)
  {
    hide Remaining, Distinct;
    match request
    case Add(s) => assert Commitments(a.signers + [s]) == Commitments(a.signers) + [s.commitment];
    case Remove(w) => RemainingAvoids(a.signers, w, ZERO);
    case ChangeThreshold(_, _) =>
  }

  lemma StepStaysSound(a: Account, request: Request, max: nat)
    requires Sound(a, max)
    ensures Sound(Executed(a, request, max), max)
  {
    hide Remaining, Distinct, Cosigners, Written;
    if Build(a, request, max).Ok? {
      PlanIsSound(a, request, max);
      ReadsTheTargets(a, request, max);
      if !(request.Add? && request.signer.commitment == ZERO) {
        TargetsAvoidZero(a, request, max);
      }
    }
  }

  function AfterAll(a: Account, requests: seq<Request>, max: nat): Account {
    if requests == [] then a
    else Executed(AfterAll(a, requests[..|requests| - 1], max), requests[|requests| - 1], max)
  }

  /** A sound account stays sound under every sequence of requests, and every proposal
      on the way resolves to its targets for every reader, whoever proposes it. */
  lemma {:induction false} EveryRunStaysSound(a: Account, requests: seq<Request>, max: nat, request: Request, proposer: Scheme)
    requires Sound(a, max)
    ensures
      var now := AfterAll(a, requests, max);
      && Sound(now, max)
      && now.guardian == a.guardian
      && (Build(now, request, max).Ok? ==>
            var targets := Build(now, request, max).value.targets;
            TargetSigners(Hexes(Commitments(targets)), Names(WireSchemes(targets, proposer, now.signers)), now.signers) == Ok(targets))
    decreases |requests|
  {
    hide Sound, Build, Hexes, Names, WireSchemes, TargetSigners, Proposable;
    if requests != [] {
      var before, last := requests[..|requests| - 1], requests[|requests| - 1];
      EveryRunStaysSound(a, before, max, last, proposer);
      StepStaysSound(AfterAll(a, before, max), last, max);
    }
    var now := AfterAll(a, requests, max);
    if Build(now, request, max).Ok? {
      PlanIsSound(now, request, max);
      ProposalsReadBack(Build(now, request, max).value.targets, proposer, now.signers);
    }
  }

  /** A created account is sound when its configuration is valid, fits and names no
      zero word. */
  lemma CreatedIsSound(c: Config, max: nat)
    requires ValidConfig(c) && |c.commitments| <= max && max > 0 && ZERO !in c.commitments
    ensures Sound(Account(Created(c, max), c.threshold, c.guardian), max)
  {
    hide ValidOverrides, Created;
    var n := CreationReadsBack(c, max);
    assert c.commitments[..n] == c.commitments;
  }
}
