/**
The monotonic timestamp a client mints for its auth metadata
(crates/client/src/client.rs, `next_monotonic_timestamp`): a load followed by a
weak compare-and-exchange loop on one `AtomicI64`.

`Mints` is the loop as a transition system, with any number of calls in flight
and every load, failed exchange and successful exchange an atomic step. The
main theorem says that every interleaving is the sequential computation `Mint`
over the calls in the order in which their exchanges succeeded.
*/
module Timestamps {
  import opened Wrappers

  const I64_MIN: int := -0x8000_0000_0000_0000
  const I64_MAX: int := 0x7FFF_FFFF_FFFF_FFFF

  type I64 = x: int | I64_MIN <= x <= I64_MAX witness 0

  /** Rust's `saturating_add(1)` on an `i64`. */
  function SaturatingSucc(x: I64): I64 {
    if x == I64_MAX then x else x + 1
  }

  /** What one successful iteration writes over `previous` and returns. */
  function Mint(previous: I64, now: I64): I64 {
    if SaturatingSucc(previous) < now then now else SaturatingSucc(previous)
  }

  /** Minting never goes back, never lags the clock, and is strict exactly below the ceiling. */
  lemma MintAdvances(previous: I64, now: I64)
    ensures previous <= Mint(previous, now) && now <= Mint(previous, now)
    ensures previous < Mint(previous, now) <==> previous < I64_MAX
  {
  }

  // ----- the loop of one call, in the source's own form -----

  /** What the other threads do just before one exchange: the value they leave
      in the cell, and whether the weak exchange fails spuriously. */
  datatype Interference = Interference(cell: I64, spurious: bool)

  class AtomicI64 {
    var value: I64

    constructor (initial: I64)
      ensures value == initial
    {
      value := initial;
    }

    /** `compare_exchange_weak`: may fail although the cell holds `expected`. */
    method CompareExchangeWeak(expected: I64, desired: I64, spurious: bool) returns (r: Result<I64, I64>)
      modifies this
      ensures r == (if old(value) == expected && !spurious then Ok(expected) else Err(old(value)))
      ensures value == if r.Ok? then desired else old(value)
    {
      if value == expected && !spurious {
        value := desired;
        return Ok(expected);
      }
      return Err(value);
    }
  }

  /** Whether the attempt made at `k` takes the cell: the cell still holds what
      the attempt before it (or the initial load) saw. */
  predicate Takes(loaded: I64, others: seq<Interference>, k: nat)
    requires k < |others|
  {
    !others[k].spurious && others[k].cell == if k == 0 then loaded else others[k - 1].cell
  }

  /** `next_monotonic_timestamp`. `others[k]` is the interference before attempt
      `k`; `None` means that the call still spins when `others` ends. */
  method NextMonotonicTimestamp(cell: AtomicI64, now: I64, others: seq<Interference>)
      returns (minted: Option<I64>, ghost attempt: nat)
    modifies cell
    ensures minted.None? ==> forall k | 0 <= k < |others| :: !Takes(old(cell.value), others, k)
    ensures minted.Some? ==>
      && attempt < |others|
      && Takes(old(cell.value), others, attempt)
      && (forall k | 0 <= k < attempt :: !Takes(old(cell.value), others, k))
      && minted.value == cell.value == Mint(others[attempt].cell, now)
  {
    var previous := cell.value;
    attempt := 0;
    for i := 0 to |others|
      invariant attempt == i
      invariant previous == if i == 0 then old(cell.value) else others[i - 1].cell
      invariant forall k | 0 <= k < i :: !Takes(old(cell.value), others, k)
    {
      cell.value := others[i].cell;
      var next := Mint(previous, now);
      var exchange := cell.CompareExchangeWeak(previous, next, others[i].spurious);
      match exchange {
        case Ok(_) =>
          return Some(next), i;
        case Err(actual) =>
          previous := actual;
      }
      attempt := attempt + 1;
    }
    return None, attempt;
  }

  // ----- any number of calls, interleaved -----

  type CallId = nat

  /** `began` counts the mints already returned when the call loaded the cell. */
  datatype Phase =
    | Trying(now: I64, previous: I64, began: nat)
    | Returned

  datatype Minted = Minted(call: CallId, now: I64, value: I64, began: nat)

  datatype Mints = Mints(last: I64, calls: map<CallId, Phase>, minted: seq<Minted>)

  datatype Event =
    | Load(call: CallId, now: I64)
    | Exchange(call: CallId)
    | FailExchange(call: CallId)

  function Start(last: I64): Mints {
    Mints(last, map[], [])
  }

  predicate Enabled(s: Mints, e: Event) {
    match e
    case Load(call, _) => call !in s.calls
    case Exchange(call) => call in s.calls && s.calls[call].Trying? && s.calls[call].previous == s.last
    // A weak exchange may also fail when the cell still holds the value.
    case FailExchange(call) => call in s.calls && s.calls[call].Trying?
  }

  function Do(s: Mints, e: Event): Mints
    requires Enabled(s, e)
  {
    match e
    case Load(call, now) =>
      s.(calls := s.calls[call := Trying(now, s.last, |s.minted|)])
    case Exchange(call) =>
      var p := s.calls[call];
      var next := Mint(p.previous, p.now);
      Mints(next, s.calls[call := Returned], s.minted + [Minted(call, p.now, next, p.began)])
    case FailExchange(call) =>
      s.(calls := s.calls[call := s.calls[call].(previous := s.last)])
  }

  predicate Runs(s: Mints, es: seq<Event>)
    decreases |es|
  {
    es == [] || (Enabled(s, es[0]) && Runs(Do(s, es[0]), es[1..]))
  }

  function After(s: Mints, es: seq<Event>): Mints
    requires Runs(s, es)
    decreases |es|
  {
    if es == [] then s else After(Do(s, es[0]), es[1..])
  }

  /** The value in the cell before mint `k`. */
  function Before(initial: I64, minted: seq<Minted>, k: nat): I64
    requires k <= |minted|
  {
    if k == 0 then initial else minted[k - 1].value
  }

  /** The sequential specification: mint `k` is computed from mint `k - 1`. */
  ghost predicate Sequential(initial: I64, minted: seq<Minted>) {
    forall k {:trigger Before(initial, minted, k)} | 0 <= k < |minted| ::
      minted[k].value == Mint(Before(initial, minted, k), minted[k].now)
  }

  ghost predicate Inv(initial: I64, s: Mints) {
    && Sequential(initial, s.minted)
    && s.last == Before(initial, s.minted, |s.minted|)
    && (forall c | c in s.calls && s.calls[c].Trying? :: s.calls[c].began <= |s.minted|)
    && (forall k | 0 <= k < |s.minted| :: s.minted[k].began <= k)
    && (forall k | 0 <= k < |s.minted| ::
          s.minted[k].call in s.calls && s.calls[s.minted[k].call].Returned?)
    && (forall j, k | 0 <= j < k < |s.minted| :: s.minted[j].call != s.minted[k].call)
  }

  lemma SequentialSnoc(initial: I64, minted: seq<Minted>, m: Minted)
    requires Sequential(initial, minted)
    requires m.value == Mint(Before(initial, minted, |minted|), m.now)
    ensures Sequential(initial, minted + [m])
  {
    forall k {:trigger Before(initial, minted + [m], k)} | 0 <= k < |minted + [m]|
      ensures (minted + [m])[k].value == Mint(Before(initial, minted + [m], k), (minted + [m])[k].now)
    {
      assert Before(initial, minted + [m], k) == Before(initial, minted, k);
    }
  }

  lemma StepKeepsInv(initial: I64, s: Mints, e: Event)
    requires Inv(initial, s) && Enabled(s, e)
    ensures Inv(initial, Do(s, e))
  {
    hide Sequential, Mint;
    if e.Exchange? {
      var p := s.calls[e.call];
      SequentialSnoc(initial, s.minted, Minted(e.call, p.now, Mint(p.previous, p.now), p.began));
    }
  }

  lemma {:induction false} RunKeepsInv(initial: I64, s: Mints, es: seq<Event>)
    requires Inv(initial, s) && Runs(s, es)
    ensures Inv(initial, After(s, es))
    decreases |es|
  {
    if es != [] {
      StepKeepsInv(initial, s, es[0]);
      RunKeepsInv(initial, Do(s, es[0]), es[1..]);
    }
  }

  /** Sequential mints never go back; a mint is overtaken by every later one
      exactly when it is below the ceiling. */
  lemma {:induction false} SequentialIsMonotone(initial: I64, minted: seq<Minted>, j: nat, k: nat)
    requires Sequential(initial, minted) && j < k < |minted|
    ensures minted[j].value <= minted[k].value
    ensures minted[j].value < minted[k].value <==> minted[j].value < I64_MAX
  {
    MintAdvances(Before(initial, minted, k), minted[k].now);
    if j < k - 1 {
      SequentialIsMonotone(initial, minted, j, k - 1);
    }
  }

  /** Linearizability of the loop: in every interleaving the returned values are
      those of the sequential specification in exchange order, no call returns
      twice, no value lags its caller's clock, and a call that began after
      another returned gets a value at least as large. Values strictly increase,
      so are pairwise distinct, exactly while they are below `i64::MAX`. */
  lemma EveryInterleavingIsSequential(initial: I64, es: seq<Event>)
    requires Runs(Start(initial), es)
    ensures
      var minted := After(Start(initial), es).minted;
      && Sequential(initial, minted)
      && (forall k | 0 <= k < |minted| :: minted[k].now <= minted[k].value)
      && (forall j, k | 0 <= j < k < |minted| ::
            && minted[j].call != minted[k].call
            && minted[j].value <= minted[k].value
            && (minted[j].value < minted[k].value <==> minted[j].value < I64_MAX))
      && (forall j, k | 0 <= j < |minted| && 0 <= k < |minted| && j < minted[k].began ::
            && minted[j].value <= minted[k].value
            && (minted[j].value < I64_MAX ==> minted[j].value < minted[k].value))
  {
    RunKeepsInv(initial, Start(initial), es);
    var minted := After(Start(initial), es).minted;
    forall k | 0 <= k < |minted| ensures minted[k].now <= minted[k].value {
      MintAdvances(Before(initial, minted, k), minted[k].now);
    }
    forall j, k | 0 <= j < k < |minted|
      ensures minted[j].value <= minted[k].value
      ensures minted[j].value < minted[k].value <==> minted[j].value < I64_MAX
    {
      SequentialIsMonotone(initial, minted, j, k);
    }
  }

  /** At the ceiling the loop repeats itself: two calls both return `i64::MAX`. */
  lemma CeilingRepeats()
    ensures
      var es := [Load(0, 5), Exchange(0), Load(1, 5), Exchange(1)];
      && Runs(Start(I64_MAX), es)
      && var minted := After(Start(I64_MAX), es).minted;
         |minted| == 2 && minted[0].value == minted[1].value == I64_MAX
  {
    var es := [Load(0, 5), Exchange(0), Load(1, 5), Exchange(1)];
    var s0 := Start(I64_MAX);
    var s1 := Do(s0, es[0]);
    var s2 := Do(s1, es[1]);
    var s3 := Do(s2, es[2]);
    assert es[1..][1..][1..] == [Exchange(1)];
    assert es[1..][1..][1..][1..] == [];
    assert Runs(s3, [Exchange(1)]);
    assert es[1..][1..] == [Load(1, 5), Exchange(1)];
    assert Runs(s2, es[1..][1..]);
    assert es[1..] == [Exchange(0), Load(1, 5), Exchange(1)];
    assert Runs(s1, es[1..]);
  }
}
