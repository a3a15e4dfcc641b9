/**
Collecting approvals (crates/miden-multisig-client/src/execution.rs).

An approval counts when its signer string names an approver, up to case, and it was
made under the scheme the account stores for that approver. One approval per
approver becomes an advice entry, the first that counts.
*/
module Approvals {
  import opened Wrappers
  import opened Ascii
  import opened Words
  import opened Signers
  import opened Signatures

  type Input = Signature

  type Entry = string

  /** Parses the signature and builds its advice entry for a commitment. */
  type Builder = (Word, Input) -> Result<Entry, string>

  /** What counts as an approval by `c`: the signer spells `c` in any case, and the
      account stores `c` under the approval's scheme. */
  predicate Approves(approvers: seq<Signer>, input: Input, c: Word) {
    LowerAll(input.signer) == WordHex(c) && Find(approvers, c) == Some(Signer(c, input.scheme))
  }

  // ----- one input -----

  /** The first approver whose hex form equals the signer up to case. */
  function Match(approvers: seq<Signer>, signer: string): (r: Option<Signer>)
    ensures r.Some? ==> r.value in approvers && EqIgnoreCase(WordHex(r.value.commitment), signer)
    ensures r.None? ==> forall a | a in approvers :: !EqIgnoreCase(WordHex(a.commitment), signer)
  {
    if approvers == [] then None
    else if EqIgnoreCase(WordHex(approvers[0].commitment), signer) then Some(approvers[0])
    else Match(approvers[1..], signer)
  }

  lemma HexIsFolded(w: Word)
    ensures LowerAll(WordHex(w)) == WordHex(w)
  {
    hide WordHex, WordOf;
    ParseOfWordHex(w);
    WordHexOfParse(WordHex(w));
    assert "0x" <= WordHex(w) by {
      StartsWithPrefix(w);
    }
  }

  lemma StartsWithPrefix(w: Word)
    ensures "0x" <= WordHex(w)
  {
  }

  lemma {:induction false} MatchIsFind(approvers: seq<Signer>, signer: string, c: Word)
    requires LowerAll(signer) == WordHex(c)
    ensures Match(approvers, signer) == Find(approvers, c)
    decreases |approvers|
  {
    hide WordHex, LowerAll;
    if approvers != [] {
      HexIsFolded(approvers[0].commitment);
      WordHexInjective(approvers[0].commitment, c);
      MatchIsFind(approvers[1..], signer, c);
    }
  }

  /** The approver an input counts for, as the collection loop finds it. */
  function ApproverOf(approvers: seq<Signer>, input: Input): Option<Word> {
    var stored := Match(approvers, input.signer);
    if stored.Some? && stored.value.scheme == input.scheme then Some(stored.value.commitment) else None
  }

  lemma ApproverMeans(approvers: seq<Signer>, input: Input, c: Word)
    ensures ApproverOf(approvers, input) == Some(c) <==> Approves(approvers, input, c)
  {
    hide WordHex, LowerAll;
    var stored := Match(approvers, input.signer);
    if stored.Some? {
      var found := stored.value.commitment;
      HexIsFolded(found);
      MatchIsFind(approvers, input.signer, found);
      WordHexInjective(found, c);
    } else if LowerAll(input.signer) == WordHex(c) {
      MatchIsFind(approvers, input.signer, c);
    }
  }

  // ----- the chosen inputs -----

  /** The first input that counts for its approver. */
  predicate IsFirst(approvers: seq<Signer>, inputs: seq<Input>, i: nat) {
    && i < |inputs|
    && ApproverOf(approvers, inputs[i]).Some?
    && forall j | 0 <= j < i :: ApproverOf(approvers, inputs[j]) != ApproverOf(approvers, inputs[i])
  }

  /** Those inputs, in order. */
  function Chosen(approvers: seq<Signer>, inputs: seq<Input>, n: nat): (r: seq<nat>)
    requires n <= |inputs|
  {
    if n == 0 then []
    else Chosen(approvers, inputs, n - 1) + if IsFirst(approvers, inputs, n - 1) then [n - 1] else []
  }

  /** Exactly those inputs, each once, in order. */
  lemma {:induction false} ChosenAre(approvers: seq<Signer>, inputs: seq<Input>, n: nat)
    requires n <= |inputs|
    ensures forall k | 0 <= k < |Chosen(approvers, inputs, n)| ::
              Chosen(approvers, inputs, n)[k] < n && IsFirst(approvers, inputs, Chosen(approvers, inputs, n)[k])
    ensures forall i: nat | i < n && IsFirst(approvers, inputs, i) :: i in Chosen(approvers, inputs, n)
    ensures forall k, l | 0 <= k < l < |Chosen(approvers, inputs, n)| :: Chosen(approvers, inputs, n)[k] < Chosen(approvers, inputs, n)[l]
    decreases n
  {
    hide IsFirst;
    if n > 0 {
      ChosenAre(approvers, inputs, n - 1);
    }
  }

  /** The approvers that approved. */
  ghost function ApprovedBy(approvers: seq<Signer>, inputs: seq<Input>, n: nat): set<Word>
    requires n <= |inputs|
  {
    set i | 0 <= i < n && ApproverOf(approvers, inputs[i]).Some? :: ApproverOf(approvers, inputs[i]).value
  }

  /** The approvers for whom some input counts. */
  ghost function Approving(approvers: seq<Signer>, inputs: seq<Input>): set<Word> {
    set a | a in approvers && (exists i | 0 <= i < |inputs| :: Approves(approvers, inputs[i], a.commitment)) :: a.commitment
  }

  lemma ApprovedMeans(approvers: seq<Signer>, inputs: seq<Input>)
    ensures ApprovedBy(approvers, inputs, |inputs|) == Approving(approvers, inputs)
  {
    forall c
      ensures c in ApprovedBy(approvers, inputs, |inputs|) <==> c in Approving(approvers, inputs)
    {
      ApprovedMember(approvers, inputs, c);
    }
  }

  lemma ApprovedMember(approvers: seq<Signer>, inputs: seq<Input>, c: Word)
    ensures c in ApprovedBy(approvers, inputs, |inputs|) <==> c in Approving(approvers, inputs)
  {
    hide ApproverOf, LowerAll, WordHex;
    forall i | 0 <= i < |inputs| {
      ApproverMeans(approvers, inputs[i], c);
    }
    if c in ApprovedBy(approvers, inputs, |inputs|) {
      var i :| 0 <= i < |inputs| && ApproverOf(approvers, inputs[i]) == Some(c);
      assert Approves(approvers, inputs[i], c);
      assert Signer(c, inputs[i].scheme) in approvers;
    }
  }

  /** One input is chosen per approver that approved. */
  lemma {:induction false} OneEach(approvers: seq<Signer>, inputs: seq<Input>, n: nat)
    requires n <= |inputs|
    ensures |Chosen(approvers, inputs, n)| == |ApprovedBy(approvers, inputs, n)|
    decreases n
  {
    hide ApproverOf, IsFirst;
    if n > 0 {
      OneEach(approvers, inputs, n - 1);
      var before, last := ApprovedBy(approvers, inputs, n - 1), ApproverOf(approvers, inputs[n - 1]);
      FirstIffNew(approvers, inputs, n - 1);
      if IsFirst(approvers, inputs, n - 1) {
        assert ApprovedBy(approvers, inputs, n) == before + {last.value};
      } else {
        assert ApprovedBy(approvers, inputs, n) == before;
      }
    }
  }

  lemma FirstIffNew(approvers: seq<Signer>, inputs: seq<Input>, i: nat)
    requires i < |inputs|
    ensures IsFirst(approvers, inputs, i) <==>
            ApproverOf(approvers, inputs[i]).Some? &&
            ApproverOf(approvers, inputs[i]).value !in ApprovedBy(approvers, inputs, i)
  {
    hide ApproverOf;
  }

  // ----- the collection loop -----

  datatype AdviceError = NotAWord(index: nat) | Unbuildable(index: nat, reason: string)

  /** Whether an approval can be turned into an entry: its prefix is lower case and
      the builder accepts it. */
  predicate Usable(approvers: seq<Signer>, input: Input, build: Builder)
    requires ApproverOf(approvers, input).Some?
  {
    "0x" <= input.signer && build(ApproverOf(approvers, input).value, input).Ok?
  }

  lemma ReadsAs(approvers: seq<Signer>, input: Input)
    requires ApproverOf(approvers, input).Some?
    ensures if "0x" <= input.signer then ParseWord(input.signer) == Ok(ApproverOf(approvers, input).value)
            else ParseWord(input.signer) == Err(InvalidHex)
  {
    hide WordHex, LowerAll, ParseWord, ApproverOf;
    var c := ApproverOf(approvers, input).value;
    ApproverMeans(approvers, input, c);
    FoldedReads(input.signer, c);
  }

  /** A signer that was validated decodes: only under the prefix `0X` does the match
      accept what the decoder refuses. */
  lemma ValidatedSignersDecode(approvers: seq<Signer>, input: Input)
    requires ApproverOf(approvers, input).Some?
    ensures IsWordHex(input.signer) <==> "0x" <= input.signer
  {
    hide WordHex, LowerAll, ParseWord, ApproverOf, IsWordHex, WordOf;
    var c := ApproverOf(approvers, input).value;
    ApproverMeans(approvers, input, c);
    FoldedReads(input.signer, c);
    ParsesIff(input.signer);
  }

  lemma ParsesIff(s: string)
    ensures ParseWord(s).Ok? <==> IsWordHex(s)
  {
    hide WordOf;
  }

  /** Every approver has such a spelling: it counts and stops the collection. */
  lemma UpperPrefixStopsTheCollection(approvers: seq<Signer>, c: Word, input: Input, build: Builder)
    requires Find(approvers, c) == Some(Signer(c, input.scheme)) && input.signer == "0X" + WordHex(c)[2..]
    ensures ApproverOf(approvers, input) == Some(c) && !Usable(approvers, input, build)
  {
    hide WordHex, LowerAll, Find, ApproverOf;
    StartsWithPrefix(c);
    var digits := WordHex(c)[2..];
    assert WordHex(c) == "0x" + digits;
    HexIsFolded(c);
    UpperFolds(digits);
    ApproverMeans(approvers, input, c);
    assert input.signer[1] == 'X';
  }

  lemma UpperFolds(digits: string)
    ensures LowerAll("0X" + digits) == LowerAll("0x" + digits)
  {
    assert LowerAll("0X" + digits) == LowerAll("0x" + digits);
  }

  /** Folded signer strings identify the approvers they count for. */
  lemma KeyIsApprover(approvers: seq<Signer>, x: Input, y: Input)
    requires ApproverOf(approvers, x).Some? && ApproverOf(approvers, y).Some?
    ensures LowerAll(x.signer) == LowerAll(y.signer) <==> ApproverOf(approvers, x) == ApproverOf(approvers, y)
  {
    hide WordHex, LowerAll, ApproverOf;
    ApproverMeans(approvers, x, ApproverOf(approvers, x).value);
    ApproverMeans(approvers, y, ApproverOf(approvers, y).value);
    WordHexInjective(ApproverOf(approvers, x).value, ApproverOf(approvers, y).value);
  }

  ghost function Keys(approvers: seq<Signer>, inputs: seq<Input>, n: nat): set<string>
    requires n <= |inputs|
  {
    set j | 0 <= j < n && ApproverOf(approvers, inputs[j]).Some? :: LowerAll(inputs[j].signer)
  }

  lemma KeysFindFirst(approvers: seq<Signer>, inputs: seq<Input>, i: nat)
    requires i < |inputs| && ApproverOf(approvers, inputs[i]).Some?
    ensures LowerAll(inputs[i].signer) !in Keys(approvers, inputs, i) <==> IsFirst(approvers, inputs, i)
    ensures Keys(approvers, inputs, i + 1) == Keys(approvers, inputs, i) + {LowerAll(inputs[i].signer)}
  {
    hide ApproverOf, LowerAll;
    forall j | 0 <= j < i && ApproverOf(approvers, inputs[j]).Some? {
      KeyIsApprover(approvers, inputs[j], inputs[i]);
    }
  }

  /** What a usable approval becomes. */
  predicate Becomes(approvers: seq<Signer>, input: Input, build: Builder, entry: Entry) {
    && ApproverOf(approvers, input).Some?
    && Usable(approvers, input, build)
    && build(ApproverOf(approvers, input).value, input) == Ok(entry)
  }

  /** `advice` holds what each chosen input among the first `n` becomes. */
  ghost predicate Entries(approvers: seq<Signer>, inputs: seq<Input>, build: Builder, n: nat, advice: seq<Entry>)
    requires n <= |inputs|
  {
    var chosen := Chosen(approvers, inputs, n);
    && |advice| == |chosen|
    && forall k | 0 <= k < |chosen| :: chosen[k] < n && Becomes(approvers, inputs[chosen[k]], build, advice[k])
  }

  /** Every chosen approval among the first `n` inputs is usable. */
  ghost predicate UsableUpTo(approvers: seq<Signer>, inputs: seq<Input>, build: Builder, n: nat) {
    forall i: nat | i < n && IsFirst(approvers, inputs, i) :: Usable(approvers, inputs[i], build)
  }

  ghost predicate AllUsable(approvers: seq<Signer>, inputs: seq<Input>, build: Builder) {
    UsableUpTo(approvers, inputs, build, |inputs|)
  }

  /** The error of the first approval that is not usable. */
  ghost predicate FirstUnusable(approvers: seq<Signer>, inputs: seq<Input>, build: Builder, error: AdviceError) {
    var i := error.index;
    && IsFirst(approvers, inputs, i)
    && UsableUpTo(approvers, inputs, build, i)
    && match error
       case NotAWord(_) => !("0x" <= inputs[i].signer)
       case Unbuildable(_, reason) => "0x" <= inputs[i].signer && build(ApproverOf(approvers, inputs[i]).value, inputs[i]) == Err(reason)
  }

  /** `collect_signature_advice`. It succeeds exactly when every chosen approval is
      usable, and then yields one entry per chosen approval, in order. */
  method CollectSignatureAdvice(approvers: seq<Signer>, inputs: seq<Input>, build: Builder)
    returns (r: Result<seq<Entry>, AdviceError>)
    ensures r.Ok? <==> AllUsable(approvers, inputs, build)
    ensures r.Ok? ==> Entries(approvers, inputs, build, |inputs|, r.value)
    ensures r.Err? ==> FirstUnusable(approvers, inputs, build, r.error)
  {
    hide WordHex, LowerAll, ParseWord, ApproverOf, Keys, Match, IsFirst;
    var advice: seq<Entry> := [];
    var added: set<string> := {};
    assert Keys(approvers, inputs, 0) == {} by {
      NoKeys(approvers, inputs);
    }
    for i := 0 to |inputs|
      invariant Entries(approvers, inputs, build, i, advice)
      invariant added == Keys(approvers, inputs, i)
    {
      var input := inputs[i];
      var stored := Match(approvers, input.signer);
      Step(approvers, inputs, i);
      if stored.None? || stored.value.scheme != input.scheme {
        continue;
      }
      var key := LowerAll(input.signer);
      if key in added {
        continue;
      }
      added := added + {key};
      ReadsAs(approvers, input);
      var commitment := ParseWord(input.signer);
      if commitment.Err? {
        EntriesAreUsable(approvers, inputs, build, i, advice);
        return Err(NotAWord(i));
      }
      var entry := build(commitment.value, input);
      if entry.Err? {
        EntriesAreUsable(approvers, inputs, build, i, advice);
        return Err(Unbuildable(i, entry.error));
      }
      advice := advice + [entry.value];
    }
    EntriesAreUsable(approvers, inputs, build, |inputs|, advice);
    return Ok(advice);
  }

  lemma NoKeys(approvers: seq<Signer>, inputs: seq<Input>)
    ensures Keys(approvers, inputs, 0) == {}
  {
  }

  /** What the loop's branches mean for input `i`. */
  lemma Step(approvers: seq<Signer>, inputs: seq<Input>, i: nat)
    requires i < |inputs|
    ensures
      var stored := Match(approvers, inputs[i].signer);
      var counts := stored.Some? && stored.value.scheme == inputs[i].scheme;
      var key := LowerAll(inputs[i].signer);
      && (counts <==> ApproverOf(approvers, inputs[i]).Some?)
      && (IsFirst(approvers, inputs, i) <==> counts && key !in Keys(approvers, inputs, i))
      && Keys(approvers, inputs, i + 1) == if counts then Keys(approvers, inputs, i) + {key} else Keys(approvers, inputs, i)
  {
    hide LowerAll, Match;
    if ApproverOf(approvers, inputs[i]).Some? {
      KeysFindFirst(approvers, inputs, i);
    } else {
      assert Keys(approvers, inputs, i + 1) == Keys(approvers, inputs, i);
    }
  }

  lemma EntriesAreUsable(approvers: seq<Signer>, inputs: seq<Input>, build: Builder, n: nat, advice: seq<Entry>)
    requires n <= |inputs| && Entries(approvers, inputs, build, n, advice)
    ensures UsableUpTo(approvers, inputs, build, n)
  {
    var chosen := Chosen(approvers, inputs, n);
    ChosenAre(approvers, inputs, n);
    hide Chosen, Usable;
    forall i: nat | i < n && IsFirst(approvers, inputs, i)
      ensures Usable(approvers, inputs[i], build)
    {
      assert i in chosen;
      var k :| 0 <= k < |chosen| && chosen[k] == i;
    }
  }

  // ----- bound notes -----

  type NoteId = string
  type Note = string
  type Serialized = string

  datatype BindingError = WrongCount(notes: nat, ids: nat) | Undecodable(index: nat) | IdMismatch(index: nat)

  ghost predicate Bound(ids: seq<NoteId>, notes: seq<Serialized>, decode: Serialized -> Option<Note>, id: Note -> NoteId, n: nat)
    requires n <= |ids| && n <= |notes|
  {
    forall i | 0 <= i < n :: decode(notes[i]).Some? && id(decode(notes[i]).value) == ids[i]
  }

  /** The v2 loop of a consume-notes request: every carried note must decode to
      the note its index names. */
  method BindNotes(ids: seq<NoteId>, notes: seq<Serialized>, decode: Serialized -> Option<Note>, id: Note -> NoteId)
    returns (r: Result<seq<Note>, BindingError>)
    ensures r.Ok? <==> |notes| == |ids| && Bound(ids, notes, decode, id, |ids|)
    ensures r.Ok? ==> |r.value| == |ids| && forall i | 0 <= i < |ids| :: Some(r.value[i]) == decode(notes[i]) && id(r.value[i]) == ids[i]
    ensures r.Err? ==>
      match r.error
      case WrongCount(n, m) => n == |notes| && m == |ids| && n != m
      case Undecodable(i) => i < |ids| == |notes| && Bound(ids, notes, decode, id, i) && decode(notes[i]).None?
      case IdMismatch(i) => i < |ids| == |notes| && Bound(ids, notes, decode, id, i) &&
                            decode(notes[i]).Some? && id(decode(notes[i]).value) != ids[i]
  {
    if |notes| != |ids| {
      return Err(WrongCount(|notes|, |ids|));
    }
    var decoded: seq<Note> := [];
    for i := 0 to |notes|
      invariant |decoded| == i && Bound(ids, notes, decode, id, i)
      invariant forall j | 0 <= j < i :: Some(decoded[j]) == decode(notes[j])
    {
      var note := decode(notes[i]);
      if note.None? {
        return Err(Undecodable(i));
      }
      if id(note.value) != ids[i] {
        return Err(IdMismatch(i));
      }
      decoded := decoded + [note.value];
    }
    return Ok(decoded);
  }
}
