/**
Per-procedure threshold overrides (crates/miden-multisig-client/src/account.rs;
crates/shared/src/multisig_threshold.rs).

The account stores overrides in a map from procedure root to a word. Changing one
reads the known procedures back, edits the list and rebuilds the whole map.
*/
module ProcedureThresholds {
  import opened Wrappers
  import opened Words
  import opened Procedures

  const U32_BOUND: nat := 0x1_0000_0000

  type U32 = x: int | 0 <= x < U32_BOUND

  /** `pinned`: the account was built from the contract version this SDK knows.
      `thresholds`: the override map, `None` when the slot is missing.
      `config`: the threshold configuration word, if present. */
  datatype Account = Account(pinned: bool, config: Option<Word>, thresholds: Option<map<Word, Word>>)

  /** `as u32` on a canonical element. */
  function Truncate(f: Felt): U32 {
    f % U32_BOUND
  }

  /** A missing key reads as the zero word, a missing slot as nothing. */
  function Entry(a: Account, root: Word): Option<Word> {
    if a.thresholds.None? then None
    else Some(if root in a.thresholds.value then a.thresholds.value[root] else ZERO)
  }

  /** The override a map entry holds. */
  function Override(entry: Option<Word>): Option<U32> {
    if entry.None? || Truncate(entry.value[0]) == 0 then None else Some(Truncate(entry.value[0]))
  }

  /** What is read for a known procedure. */
  function Read(a: Account, p: ProcedureName): Option<U32> {
    Override(Entry(a, Root(p)))
  }

  datatype ThresholdError = UnsupportedContractVersion | DuplicateKey

  /** `procedure_threshold`. */
  method ProcedureThreshold(a: Account, p: ProcedureName) returns (r: Result<Option<U32>, ThresholdError>)
    ensures r == if a.pinned then Ok(Read(a, p)) else Err(UnsupportedContractVersion)
  {
    hide Root;
    if !a.pinned {
      return Err(UnsupportedContractVersion);
    }
    var value := Entry(a, Root(p));
    if value.None? {
      return Ok(None);
    }
    if value.value == ZERO {
      return Ok(None);
    }
    var threshold := Truncate(value.value[0]);
    if threshold == 0 {
      return Ok(None);
    }
    return Ok(Some(threshold));
  }

  // ----- the list of overrides -----

  type Pair = (ProcedureName, U32)

  predicate NamesDiffer(list: seq<Pair>) {
    forall i, j | 0 <= i < j < |list| :: list[i].0 != list[j].0
  }

  /** `list` holds exactly the overrides `value` gives the first `n` procedures. */
  ghost predicate Lists(list: seq<Pair>, value: ProcedureName -> Option<U32>, n: nat)
    requires n <= |ALL|
  {
    && NamesDiffer(list)
    && (forall x: Pair | x in list :: x.0 in ALL[..n] && value(x.0) == Some(x.1))
    && (forall p | p in ALL[..n] && value(p).Some? :: (p, value(p).value) in list)
  }

  lemma Listed(n: nat)
    requires n < |ALL|
    ensures ALL[n] !in ALL[..n] && ALL[..n + 1] == ALL[..n] + [ALL[n]]
  {
  }

  lemma EveryProcedureIsListed(p: ProcedureName)
    ensures p in ALL
  {
    match p
    case UpdateSigners => assert ALL[0] == p;
    case UpdateProcedureThreshold => assert ALL[1] == p;
    case AuthTx => assert ALL[2] == p;
    case UpdateGuardian => assert ALL[3] == p;
    case SendAsset => assert ALL[4] == p;
    case ReceiveAsset => assert ALL[5] == p;
    case CreateNote => assert ALL[6] == p;
  }

  /** `procedure_threshold_overrides`. */
  method Overrides(a: Account) returns (r: Result<seq<Pair>, ThresholdError>)
    ensures r.Ok? <==> a.pinned
    ensures r.Err? ==> r.error.UnsupportedContractVersion?
    ensures r.Ok? ==> Lists(r.value, p => Read(a, p), |ALL|)
  {
    hide Read;
    var overrides: seq<Pair> := [];
    for n := 0 to |ALL|
      invariant n > 0 ==> a.pinned
      invariant Lists(overrides, p => Read(a, p), n)
    {
      var threshold := ProcedureThreshold(a, ALL[n]);
      if threshold.Err? {
        return Err(threshold.error);
      }
      Listed(n);
      if threshold.value.Some? {
        overrides := overrides + [(ALL[n], threshold.value.value)];
      }
    }
    return Ok(overrides);
  }

  // ----- rebuilding the map -----

  function ThresholdWord(t: U32): Word {
    [t, 0, 0, 0]
  }

  /** What `q` should read after setting `p` to `t`; zero removes. */
  function ReadAfter(a: Account, p: ProcedureName, t: U32, q: ProcedureName): Option<U32> {
    if q != p then Read(a, q) else if t == 0 then None else Some(t)
  }

  function Written(a: Account, p: ProcedureName, t: U32): ProcedureName -> Option<U32> {
    q => ReadAfter(a, p, t, q)
  }

  lemma AllRootsDiffer()
    ensures forall p, q :: Root(p) == Root(q) ==> p == q
  {
    hide Root;
    forall p, q {
      RootsDiffer(p, q);
    }
  }

  /** The map that holds exactly the overrides of the first `n` procedures. */
  function MapUpTo(value: ProcedureName -> Option<U32>, n: nat): map<Word, Word>
    requires n <= |ALL|
  {
    if n == 0 then map[]
    else
      var before, p := MapUpTo(value, n - 1), ALL[n - 1];
      if value(p).Some? then before[Root(p) := ThresholdWord(value(p).value)] else before
  }

  function MapOf(value: ProcedureName -> Option<U32>): map<Word, Word> {
    MapUpTo(value, |ALL|)
  }

  predicate IsRoot(root: Word) {
    exists p | p in ALL :: Root(p) == root
  }

  lemma {:induction false} MapUpToHas(value: ProcedureName -> Option<U32>, n: nat, p: ProcedureName, root: Word)
    requires n <= |ALL|
    ensures Root(p) in MapUpTo(value, n) <==> p in ALL[..n] && value(p).Some?
    ensures Root(p) in MapUpTo(value, n) ==> MapUpTo(value, n)[Root(p)] == ThresholdWord(value(p).value)
    ensures root in MapUpTo(value, n) ==> IsRoot(root)
    decreases n
  {
    hide Root, ThresholdWord;
    if n > 0 {
      MapUpToHas(value, n - 1, p, root);
      Listed(n - 1);
      RootsDiffer(p, ALL[n - 1]);
    }
  }

  lemma MapOfHas(value: ProcedureName -> Option<U32>, p: ProcedureName)
    ensures Root(p) in MapOf(value) <==> value(p).Some?
    ensures value(p).Some? ==> MapOf(value)[Root(p)] == ThresholdWord(value(p).value)
  {
    hide Root, ThresholdWord, MapUpTo;
    MapUpToHas(value, |ALL|, p, ZERO);
    EveryProcedureIsListed(p);
    assert ALL[..|ALL|] == ALL;
  }

  /** The account after the change. */
  function Rebuilt(a: Account, p: ProcedureName, t: U32): Account {
    a.(thresholds := Some(MapOf(Written(a, p, t))))
  }

  /** `StorageMap::with_entries`, which refuses a repeated key. */
  method WithEntries(list: seq<Pair>) returns (r: Result<map<Word, Word>, ThresholdError>)
    requires NamesDiffer(list)
    ensures r.Ok?
    ensures forall root :: root in r.value <==> exists i | 0 <= i < |list| :: Root(list[i].0) == root
    ensures forall i | 0 <= i < |list| :: Root(list[i].0) in r.value && r.value[Root(list[i].0)] == ThresholdWord(list[i].1)
  {
    AllRootsDiffer();
    hide Root;
    var m: map<Word, Word> := map[];
    for n := 0 to |list|
      invariant forall root :: root in m <==> exists i | 0 <= i < n :: Root(list[i].0) == root
      invariant forall i | 0 <= i < n :: Root(list[i].0) in m && m[Root(list[i].0)] == ThresholdWord(list[i].1)
    {
      if Root(list[n].0) in m {
        return Err(DuplicateKey);
      }
      m := m[Root(list[n].0) := ThresholdWord(list[n].1)];
    }
    return Ok(m);
  }

  /** `with_procedure_threshold`: read the overrides, drop the procedure's own, push
      the new one unless it is zero, and rebuild the map from the list. */
  method WithProcedureThreshold(a: Account, p: ProcedureName, t: U32) returns (r: Result<Account, ThresholdError>)
    ensures r == if a.pinned then Ok(Rebuilt(a, p, t)) else Err(UnsupportedContractVersion)
  {
    hide Read, Root;
    var read := Overrides(a);
    if read.Err? {
      return Err(read.error);
    }
    var overrides := Retain(read.value, q => Read(a, q), p);
    PushLists(a, p, t, overrides);
    if t > 0 {
      overrides := overrides + [(p, t)];
    }
    hide Lists, Written;
    var m := WithEntries(overrides);
    EntriesAreTheMap(overrides, Written(a, p, t), m.value);
    return Ok(a.(thresholds := Some(m.value)));
  }

  lemma PushLists(a: Account, p: ProcedureName, t: U32, kept: seq<Pair>)
    requires Lists(kept, q => if q == p then None else Read(a, q), |ALL|)
    requires forall x: Pair | x in kept :: x.0 != p
    ensures
      var list := if t > 0 then kept + [(p, t)] else kept;
      Lists(list, Written(a, p, t), |ALL|) && NamesDiffer(list)
  {
    hide Read;
    EveryProcedureIsListed(p);
    assert ALL[..|ALL|] == ALL;
  }

  method Retain(list: seq<Pair>, ghost value: ProcedureName -> Option<U32>, p: ProcedureName) returns (kept: seq<Pair>)
    requires Lists(list, value, |ALL|)
    ensures Lists(kept, q => if q == p then None else value(q), |ALL|)
    ensures forall x: Pair | x in kept :: x.0 != p
  {
    kept := [];
    for n := 0 to |list|
      invariant NamesDiffer(kept)
      invariant forall x: Pair :: x in kept <==> x in list[..n] && x.0 != p
    {
      assert list[..n + 1] == list[..n] + [list[n]];
      if list[n].0 != p {
        forall i | 0 <= i < |kept|
          ensures kept[i].0 != list[n].0
        {
          assert kept[i] in list[..n];
        }
        kept := kept + [list[n]];
      }
    }
    assert list[..|list|] == list;
  }

  lemma EntriesAreTheMap(list: seq<Pair>, value: ProcedureName -> Option<U32>, m: map<Word, Word>)
    requires Lists(list, value, |ALL|)
    requires forall root :: root in m <==> exists i | 0 <= i < |list| :: Root(list[i].0) == root
    requires forall i | 0 <= i < |list| :: Root(list[i].0) in m && m[Root(list[i].0)] == ThresholdWord(list[i].1)
    ensures m == MapOf(value)
  {
    hide Root, ThresholdWord, MapOf;
    forall root: Word
      ensures root in m <==> root in MapOf(value)
      ensures root in m ==> m[root] == MapOf(value)[root]
    {
      if IsRoot(root) {
        var p :| Root(p) == root;
        EntryOf(list, value, m, p);
        MapOfHas(value, p);
      } else {
        assert root !in m by {
          assert forall i | 0 <= i < |list| :: list[i] in list && list[i].0 in ALL[..|ALL|];
          assert ALL[..|ALL|] == ALL;
        }
        assert root !in MapOf(value) by {
          NotARoot(value, root);
        }
      }
    }
  }

  lemma NotARoot(value: ProcedureName -> Option<U32>, root: Word)
    requires !IsRoot(root)
    ensures root !in MapOf(value)
  {
    hide Root, MapUpTo;
    MapUpToHas(value, |ALL|, UpdateSigners, root);
  }

  lemma EntryOf(list: seq<Pair>, value: ProcedureName -> Option<U32>, m: map<Word, Word>, p: ProcedureName)
    requires Lists(list, value, |ALL|)
    requires forall root :: root in m <==> exists i | 0 <= i < |list| :: Root(list[i].0) == root
    requires forall i | 0 <= i < |list| :: Root(list[i].0) in m && m[Root(list[i].0)] == ThresholdWord(list[i].1)
    ensures Root(p) in m <==> value(p).Some?
    ensures value(p).Some? ==> m[Root(p)] == ThresholdWord(value(p).value)
  {
    hide Root, ThresholdWord;
    AllRootsDiffer();
    EveryProcedureIsListed(p);
    assert ALL[..|ALL|] == ALL;
    if value(p).Some? {
      var i :| 0 <= i < |list| && list[i] == (p, value(p).value);
      assert Root(list[i].0) in m;
    }
    if Root(p) in m {
      var i :| 0 <= i < |list| && Root(list[i].0) == Root(p);
      assert list[i] in list;
    }
  }

  // ----- what a change means -----

  lemma ReadIs(a: Account, p: ProcedureName)
    requires a.thresholds.Some?
    ensures Read(a, p) == if Root(p) in a.thresholds.value then Override(Some(a.thresholds.value[Root(p)])) else None
  {
    hide Root;
  }

  lemma OverrideOfWord(t: U32)
    ensures Override(Some(ThresholdWord(t))) == if t == 0 then None else Some(t)
  {
  }

  lemma ReadIsNotZero(a: Account, p: ProcedureName)
    ensures Read(a, p).Some? ==> Read(a, p).value > 0
  {
    hide Root;
  }

  /** Each known procedure reads its new value, and nothing else survives: an
      override under a root this SDK does not know is dropped. */
  lemma ChangeMeans(a: Account, p: ProcedureName, t: U32, q: ProcedureName)
    ensures Read(Rebuilt(a, p, t), q) == ReadAfter(a, p, t, q)
    ensures Rebuilt(a, p, t).pinned == a.pinned && Rebuilt(a, p, t).config == a.config
  {
    hide Root, Read, MapOf, Override;
    MapOfHas(Written(a, p, t), q);
    ReadIs(Rebuilt(a, p, t), q);
    ReadIsNotZero(a, q);
    if ReadAfter(a, p, t, q).Some? {
      OverrideOfWord(ReadAfter(a, p, t, q).value);
    }
  }

  lemma UnknownRootsAreDropped(a: Account, p: ProcedureName, t: U32, root: Word)
    requires !IsRoot(root)
    ensures Entry(Rebuilt(a, p, t), root) == Some(ZERO)
  {
    hide Root, Read, MapOf;
    NotARoot(Written(a, p, t), root);
  }

  function AfterAll(a: Account, calls: seq<Pair>): Account {
    if calls == [] then a
    else Rebuilt(AfterAll(a, calls[..|calls| - 1]), calls[|calls| - 1].0, calls[|calls| - 1].1)
  }

  predicate IsLast(calls: seq<Pair>, p: ProcedureName, i: nat) {
    i < |calls| && calls[i].0 == p && forall j | i < j < |calls| :: calls[j].0 != p
  }

  /** After any calls on a pinned account, every known procedure reads its last
      written value, none when that is zero, else its original one. */
  lemma {:induction false} ReadsTheLastWrite(a: Account, calls: seq<Pair>, p: ProcedureName)
    ensures AfterAll(a, calls).pinned == a.pinned && AfterAll(a, calls).config == a.config
    ensures forall i: nat | IsLast(calls, p, i) ::
              Read(AfterAll(a, calls), p) == if calls[i].1 == 0 then None else Some(calls[i].1)
    ensures (forall i | 0 <= i < |calls| :: calls[i].0 != p) ==> Read(AfterAll(a, calls), p) == Read(a, p)
    decreases |calls|
  {
    hide Read, Rebuilt;
    if calls != [] {
      var before, last := calls[..|calls| - 1], calls[|calls| - 1];
      ReadsTheLastWrite(a, before, p);
      ChangeMeans(AfterAll(a, before), last.0, last.1, p);
      forall i: nat | IsLast(calls, p, i)
        ensures Read(AfterAll(a, calls), p) == if calls[i].1 == 0 then None else Some(calls[i].1)
      {
        LastOfPrefix(calls, p, i);
      }
    }
  }

  lemma LastOfPrefix(calls: seq<Pair>, p: ProcedureName, i: nat)
    requires IsLast(calls, p, i)
    ensures i == |calls| - 1 || (calls[|calls| - 1].0 != p && IsLast(calls[..|calls| - 1], p, i))
  {
  }

  // ----- the threshold of a transaction -----

  datatype Transaction = SignersUpdate | ThresholdUpdate | GuardianUpdate | Transfer | NoteConsumption | AccountDefault

  /** `ThresholdedTransaction::procedures`. */
  function Calls(tx: Transaction): seq<ProcedureName> {
    match tx
    case SignersUpdate => [UpdateSigners]
    case ThresholdUpdate => [UpdateProcedureThreshold]
    case GuardianUpdate => [UpdateGuardian]
    case Transfer => [SendAsset, CreateNote]
    case NoteConsumption => [ReceiveAsset]
    case AccountDefault => []
  }

  function DefaultThreshold(a: Account): Option<U32> {
    if a.config.None? then None else Some(Truncate(a.config.value[0]))
  }

  function Effective(a: Account, p: ProcedureName, fallback: U32): U32 {
    if Read(a, p).Some? then Read(a, p).value else fallback
  }

  /** What each called procedure requires. */
  function Requirements(a: Account, ps: seq<ProcedureName>, fallback: U32): seq<U32> {
    seq(|ps|, i requires 0 <= i < |ps| => Effective(a, ps[i], fallback))
  }

  function Highest(values: seq<U32>): (m: U32)
    requires values != []
    ensures m in values && forall i | 0 <= i < |values| :: values[i] <= m
  {
    var last := values[|values| - 1];
    if |values| == 1 then last
    else
      var before := Highest(values[..|values| - 1]);
      if before > last then before else last
  }

  /** `ThresholdedTransaction::threshold`. */
  function Threshold(a: Account, tx: Transaction): Option<U32> {
    var fallback := DefaultThreshold(a);
    if fallback.None? then None
    else if Calls(tx) == [] then fallback
    else Some(Highest(Requirements(a, Calls(tx), fallback.value)))
  }

  /** A count of approvals passes `ensure_threshold_met` exactly when it meets every
      procedure the transaction calls, each its override else the default. */
  lemma GateMeetsEveryProcedure(a: Account, tx: Transaction, collected: nat)
    requires DefaultThreshold(a).Some?
    ensures
      var fallback := DefaultThreshold(a).value;
      && Threshold(a, tx).Some?
      && (collected >= Threshold(a, tx).value <==>
          if tx.AccountDefault? then collected >= fallback
          else forall p | p in Calls(tx) :: collected >= Effective(a, p, fallback))
  {
    hide Effective, Highest;
    var fallback := DefaultThreshold(a).value;
    if Calls(tx) != [] {
      var values := Requirements(a, Calls(tx), fallback);
      assert forall i | 0 <= i < |values| :: values[i] == Effective(a, Calls(tx)[i], fallback);
    }
  }

  /** A transfer sends an asset and creates a note, and needs the higher of the two. */
  lemma TransferTakesTheHigher(a: Account)
    requires DefaultThreshold(a).Some?
    ensures
      var fallback := DefaultThreshold(a).value;
      var send, create := Effective(a, SendAsset, fallback), Effective(a, CreateNote, fallback);
      Threshold(a, Transfer) == Some(if send > create then send else create)
  {
    hide Effective;
    var fallback := DefaultThreshold(a).value;
    var values := Requirements(a, Calls(Transfer), fallback);
    assert values == [Effective(a, SendAsset, fallback), Effective(a, CreateNote, fallback)];
  }

  lemma EffectiveAfter(a: Account, p: ProcedureName, t: U32, q: ProcedureName, fallback: U32)
    ensures Effective(Rebuilt(a, p, t), q, fallback) ==
            if q == p then (if t == 0 then fallback else t) else Effective(a, q, fallback)
    ensures DefaultThreshold(Rebuilt(a, p, t)) == DefaultThreshold(a)
  {
    ChangeMeans(a, p, t, q);
    hide Read, Rebuilt;
  }

  lemma RequirementsAfter(a: Account, p: ProcedureName, t: U32, ps: seq<ProcedureName>, fallback: U32)
    ensures p !in ps ==> Requirements(Rebuilt(a, p, t), ps, fallback) == Requirements(a, ps, fallback)
    ensures p in ps && t > 0 ==> t in Requirements(Rebuilt(a, p, t), ps, fallback)
  {
    hide Effective, Rebuilt;
    var next := Rebuilt(a, p, t);
    forall i | 0 <= i < |ps|
      ensures Requirements(next, ps, fallback)[i] ==
              if ps[i] == p then (if t == 0 then fallback else t) else Requirements(a, ps, fallback)[i]
    {
      EffectiveAfter(a, p, t, ps[i], fallback);
    }
    if p !in ps {
      assert Requirements(next, ps, fallback) == Requirements(a, ps, fallback);
    }
  }

  /** Changing one procedure's threshold changes only the transactions that call it,
      and holds those to at least the new value. */
  lemma ChangeIsLocal(a: Account, p: ProcedureName, t: U32, tx: Transaction)
    requires DefaultThreshold(a).Some?
    ensures p !in Calls(tx) ==> Threshold(Rebuilt(a, p, t), tx) == Threshold(a, tx)
    ensures p in Calls(tx) && t > 0 ==> Threshold(Rebuilt(a, p, t), tx).Some? && Threshold(Rebuilt(a, p, t), tx).value >= t
  {
    hide Requirements, Rebuilt, Highest, Calls, DefaultThreshold;
    EffectiveAfter(a, p, t, p, 0);
    RequirementsAfter(a, p, t, Calls(tx), DefaultThreshold(a).value);
  }
}
