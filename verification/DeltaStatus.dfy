/**
The lifecycle status of a delta (crates/server/src/delta_object.rs). A candidate
carries counters of the canonicalization worker and the client's abandon
request; every transition below returns a new status and leaves any status that
is not a candidate as it is.
*/
module DeltaStatus {
  import opened Wrappers

  const U32_BOUND: nat := 0x1_0000_0000

  type U32 = x: int | 0 <= x < U32_BOUND

  /** `u32` increment, wrapping as a release build does. */
  function Increment(x: U32): U32 {
    (x + 1) % U32_BOUND
  }

  datatype RetainReason = RetryExhausted | Diverged | Orphaned

  datatype DiscardReason = ClientAbandoned

  datatype Status =
    | Pending(timestamp: string, proposer: string)
    | Candidate(timestamp: string, retryCount: U32, divergenceCount: U32,
                abandonRequestedAt: Option<string>, abandonConfirmCount: U32)
    | Canonical(timestamp: string)
    | Retained(timestamp: string, retainReason: Option<RetainReason>)
    | Discarded(timestamp: string, discardReason: Option<DiscardReason>)
  {
    predicate IsClientAbandoned() {
      Discarded? && discardReason == Some(ClientAbandoned)
    }

    function RequestedAt(): Option<string> {
      if Candidate? then abandonRequestedAt else None
    }

    /** The first request wins. */
    function WithAbandonRequested(now: string): Status {
      if Candidate? && abandonRequestedAt.None? then this.(abandonRequestedAt := Some(now)) else this
    }

    /** Carries a concurrently recorded request into a status that is about to
        overwrite the stored one. */
    function WithAbandonRequestPreservedFrom(stored: Option<string>): Status {
      if Candidate? && abandonRequestedAt.None? then this.(abandonRequestedAt := stored) else this
    }

    function WithIncrementedAbandonConfirm(): Status {
      if Candidate? then this.(abandonConfirmCount := Increment(abandonConfirmCount)) else this
    }

    function WithIncrementedRetry(): Status {
      if Candidate? then this.(retryCount := Increment(retryCount)) else this
    }

    function WithIncrementedDivergence(): Status {
      if Candidate? then this.(divergenceCount := Increment(divergenceCount), abandonConfirmCount := 0) else this
    }

    function WithResetDivergence(): Status {
      if Candidate? then this.(divergenceCount := 0) else this
    }
  }

  /** `DeltaStatus::candidate`. */
  function NewCandidate(timestamp: string): Status {
    Candidate(timestamp, 0, 0, None, 0)
  }

  // ----- any sequence of transitions -----

  datatype Op = Retry | Diverge | ResetDivergence | Confirm | RequestAbandon(now: string)

  function Apply(s: Status, op: Op): Status {
    match op
    case Retry => s.WithIncrementedRetry()
    case Diverge => s.WithIncrementedDivergence()
    case ResetDivergence => s.WithResetDivergence()
    case Confirm => s.WithIncrementedAbandonConfirm()
    case RequestAbandon(now) => s.WithAbandonRequested(now)
  }

  function ApplyAll(s: Status, ops: seq<Op>): Status {
    if ops == [] then s else Apply(ApplyAll(s, ops[..|ops| - 1]), ops[|ops| - 1])
  }

  function Count(ops: seq<Op>, counted: Op -> bool): nat {
    if ops == [] then 0 else Count(ops[..|ops| - 1], counted) + if counted(ops[|ops| - 1]) then 1 else 0
  }

  /** `ops[p..]` is everything after the last operation that resets. */
  ghost predicate SinceLast(ops: seq<Op>, resets: Op -> bool, p: nat) {
    && p <= |ops|
    && (p == 0 || resets(ops[p - 1]))
    && forall i | p <= i < |ops| :: !resets(ops[i])
  }

  /** There is always such a point. */
  lemma {:induction false} SinceLastExists(ops: seq<Op>, resets: Op -> bool) returns (p: nat)
    ensures SinceLast(ops, resets, p)
  {
    p := 0;
    for i := 0 to |ops|
      invariant p <= i && SinceLast(ops[..i], resets, p)
    {
      assert ops[..i + 1] == ops[..i] + [ops[i]];
      if resets(ops[i]) {
        p := i + 1;
      }
    }
    assert ops[..|ops|] == ops;
  }

  const IsRetry: Op -> bool := (op: Op) => op.Retry?
  const IsDiverge: Op -> bool := (op: Op) => op.Diverge?
  const IsReset: Op -> bool := (op: Op) => op.ResetDivergence?
  const IsConfirm: Op -> bool := (op: Op) => op.Confirm?

  /** A counter that counts `counted` and that `resets` sets to zero. */
  ghost predicate Counts(counter: U32, start: U32, ops: seq<Op>, counted: Op -> bool, resets: Op -> bool) {
    && (exists p: nat :: SinceLast(ops, resets, p))
    && (forall p: nat | SinceLast(ops, resets, p) ::
          counter == (Count(ops[p..], counted) + if p == 0 then start else 0) % U32_BOUND)
  }

  predicate NoRequest(ops: seq<Op>) {
    forall i | 0 <= i < |ops| :: !ops[i].RequestAbandon?
  }

  predicate FirstRequestAt(ops: seq<Op>, i: nat) {
    i < |ops| && ops[i].RequestAbandon? && NoRequest(ops[..i])
  }

  /** The request time is the one the status started with, else the first requested. */
  ghost predicate FirstRequested(requestedAt: Option<string>, start: Option<string>, ops: seq<Op>) {
    && (start.Some? ==> requestedAt == start)
    && (start.None? && NoRequest(ops) ==> requestedAt.None?)
    && forall i: nat | start.None? && FirstRequestAt(ops, i) :: requestedAt == Some(ops[i].now)
  }

  lemma CountsNothing(counter: U32, counted: Op -> bool, resets: Op -> bool)
    ensures Counts(counter, counter, [], counted, resets)
  {
    var none: seq<Op> := [];
    var point := SinceLastExists(none, resets);
    forall p: nat | SinceLast(none, resets, p)
      ensures counter == (Count(none[p..], counted) + if p == 0 then counter else 0) % U32_BOUND
    {
      assert none[p..] == [];
    }
  }

  lemma SinceLastStep(ops: seq<Op>, op: Op, resets: Op -> bool, p: nat)
    requires SinceLast(ops + [op], resets, p)
    ensures if resets(op) then p == |ops| + 1 else p <= |ops| && SinceLast(ops, resets, p)
  {
    var more := ops + [op];
    assert more[|ops|] == op;
    assert forall i | 0 <= i < |ops| :: more[i] == ops[i];
  }

  lemma IncrementWraps(n: nat)
    ensures Increment(n % U32_BOUND) == (n + 1) % U32_BOUND
  {
  }

  lemma CountSnoc(ops: seq<Op>, op: Op, counted: Op -> bool)
    ensures Count(ops + [op], counted) == Count(ops, counted) + if counted(op) then 1 else 0
  {
    assert (ops + [op])[..|ops|] == ops;
  }

  lemma CountsStepAt(counter: U32, start: U32, ops: seq<Op>, op: Op, counted: Op -> bool, resets: Op -> bool, p: nat)
    requires Counts(counter, start, ops, counted, resets) && !(counted(op) && resets(op))
    requires SinceLast(ops + [op], resets, p)
    ensures
      var next: U32 := if resets(op) then 0 else if counted(op) then Increment(counter) else counter;
      next == (Count((ops + [op])[p..], counted) + if p == 0 then start else 0) % U32_BOUND
  {
    SinceLastStep(ops, op, resets, p);
    hide SinceLast, Increment;
    if resets(op) {
      assert (ops + [op])[p..] == [];
    } else {
      assert (ops + [op])[p..] == ops[p..] + [op];
      CountSnoc(ops[p..], op, counted);
      hide Count;
      IncrementWraps(Count(ops[p..], counted) + if p == 0 then start else 0);
    }
  }

  lemma CountsStep(counter: U32, start: U32, ops: seq<Op>, op: Op, counted: Op -> bool, resets: Op -> bool)
    requires Counts(counter, start, ops, counted, resets) && !(counted(op) && resets(op))
    ensures
      var next: U32 := if resets(op) then 0 else if counted(op) then Increment(counter) else counter;
      Counts(next, start, ops + [op], counted, resets)
  {
    hide SinceLast, Count;
    var point := SinceLastExists(ops + [op], resets);
    forall p: nat | SinceLast(ops + [op], resets, p) {
      CountsStepAt(counter, start, ops, op, counted, resets, p);
    }
  }

  lemma {:induction false} ApplyAllCounts(s: Status, ops: seq<Op>)
    requires s.Candidate?
    ensures
      var r := ApplyAll(s, ops);
      && r.Candidate?
      && r.timestamp == s.timestamp
      && Counts(r.retryCount, s.retryCount, ops, IsRetry, (op: Op) => false)
      && Counts(r.divergenceCount, s.divergenceCount, ops, IsDiverge, IsReset)
      && Counts(r.abandonConfirmCount, s.abandonConfirmCount, ops, IsConfirm, IsDiverge)
    decreases |ops|
  {
    if ops == [] {
      CountsNothing(s.retryCount, IsRetry, (op: Op) => false);
      CountsNothing(s.divergenceCount, IsDiverge, IsReset);
      CountsNothing(s.abandonConfirmCount, IsConfirm, IsDiverge);
    } else {
      hide SinceLast, Count;
      var before, op := ops[..|ops| - 1], ops[|ops| - 1];
      assert ops == before + [op];
      ApplyAllCounts(s, before);
      var m := ApplyAll(s, before);
      CountsStep(m.retryCount, s.retryCount, before, op, IsRetry, (op: Op) => false);
      CountsStep(m.divergenceCount, s.divergenceCount, before, op, IsDiverge, IsReset);
      CountsStep(m.abandonConfirmCount, s.abandonConfirmCount, before, op, IsConfirm, IsDiverge);
    }
  }

  lemma FirstRequestStep(ops: seq<Op>, op: Op, i: nat)
    ensures FirstRequestAt(ops + [op], i) <==>
            FirstRequestAt(ops, i) || (i == |ops| && NoRequest(ops) && op.RequestAbandon?)
    ensures NoRequest(ops + [op]) <==> NoRequest(ops) && !op.RequestAbandon?
  {
    var more := ops + [op];
    assert more[|ops|] == op && forall j | 0 <= j < |ops| :: more[j] == ops[j];
    if i <= |ops| {
      assert more[..i] == ops[..i];
    }
  }

  lemma {:induction false} FirstRequestExists(ops: seq<Op>)
    requires !NoRequest(ops)
    ensures exists i: nat :: FirstRequestAt(ops, i)
    decreases |ops|
  {
    var before, op := ops[..|ops| - 1], ops[|ops| - 1];
    assert ops == before + [op];
    FirstRequestStep(before, op, |before|);
    if !NoRequest(before) {
      FirstRequestExists(before);
      var i: nat :| FirstRequestAt(before, i);
      FirstRequestStep(before, op, i);
    }
  }

  lemma {:induction false} ApplyAllRequests(s: Status, ops: seq<Op>)
    requires s.Candidate?
    ensures ApplyAll(s, ops).Candidate?
    ensures FirstRequested(ApplyAll(s, ops).abandonRequestedAt, s.abandonRequestedAt, ops)
    decreases |ops|
  {
    if ops != [] {
      var before, op := ops[..|ops| - 1], ops[|ops| - 1];
      assert ops == before + [op];
      ApplyAllRequests(s, before);
      RequestsStep(ApplyAll(s, before), s.abandonRequestedAt, before, op);
    }
  }

  lemma RequestsStep(m: Status, start: Option<string>, ops: seq<Op>, op: Op)
    requires m.Candidate? && FirstRequested(m.abandonRequestedAt, start, ops)
    ensures Apply(m, op).Candidate?
    ensures FirstRequested(Apply(m, op).abandonRequestedAt, start, ops + [op])
  {
    if !NoRequest(ops) {
      FirstRequestExists(ops);
    }
    FirstRequestStep(ops, op, 0);
    forall i: nat | start.None? && FirstRequestAt(ops + [op], i)
      ensures Apply(m, op).abandonRequestedAt == Some((ops + [op])[i].now)
    {
      FirstRequestStep(ops, op, i);
    }
  }

  /** After any transitions of a candidate its counters are what they are for:
      all retries, the divergences since the last reset, the confirmations since
      the last divergence, and the first request; its timestamp is untouched. */
  lemma CandidateCountersMean(s: Status, ops: seq<Op>)
    requires s.Candidate?
    ensures
      var r := ApplyAll(s, ops);
      && r.Candidate?
      && r.timestamp == s.timestamp
      && Counts(r.retryCount, s.retryCount, ops, IsRetry, (op: Op) => false)
      && Counts(r.divergenceCount, s.divergenceCount, ops, IsDiverge, IsReset)
      && Counts(r.abandonConfirmCount, s.abandonConfirmCount, ops, IsConfirm, IsDiverge)
      && FirstRequested(r.abandonRequestedAt, s.abandonRequestedAt, ops)
  {
    ApplyAllCounts(s, ops);
    ApplyAllRequests(s, ops);
  }

  /** Every other status is a fixed point of every transition. */
  lemma {:induction false} SettledIsFixed(s: Status, ops: seq<Op>, stored: Option<string>)
    requires !s.Candidate?
    ensures ApplyAll(s, ops) == s && s.WithAbandonRequestPreservedFrom(stored) == s
    decreases |ops|
  {
    if ops != [] {
      SettledIsFixed(s, ops[..|ops| - 1], stored);
    }
  }

  // ----- stale snapshots against concurrent requests -----

  /** A stored row and the snapshots of it that workers still hold. */
  datatype Race = Race(stored: Status, snapshots: map<nat, Status>)

  datatype Step =
    | Request(now: string)
    | Read(worker: nat)
    | WriteCounters(worker: nat, ops: seq<Op>)
    | Settle(worker: nat, settled: Status)

  /** A worker reads candidates only, and never requests an abandon. */
  predicate CanDo(r: Race, e: Step) {
    match e
    case Request(_) => true
    case Read(_) => r.stored.Candidate?
    case WriteCounters(worker, ops) => worker in r.snapshots && NoRequest(ops)
    case Settle(worker, settled) => worker in r.snapshots && !settled.Candidate?
  }

  /** A write lands on a stored candidate only; a retained status is refused where
      a request is recorded. */
  function DoStep(r: Race, e: Step): Race
    requires CanDo(r, e)
  {
    match e
    case Request(now) => r.(stored := r.stored.WithAbandonRequested(now))
    case Read(worker) => r.(snapshots := r.snapshots[worker := r.stored])
    case WriteCounters(worker, ops) =>
      var status := ApplyAll(r.snapshots[worker], ops);
      if !r.stored.Candidate? then r
      else Race(status.WithAbandonRequestPreservedFrom(r.stored.RequestedAt()), r.snapshots[worker := status])
    case Settle(worker, settled) =>
      if !r.stored.Candidate? || (settled.Retained? && r.stored.RequestedAt().Some?) then r
      else r.(stored := settled)
  }

  ghost predicate Races(rs: seq<Race>, es: seq<Step>) {
    && |rs| == |es| + 1
    && forall i | 0 <= i < |es| :: StepAt(rs, es, i)
  }

  ghost predicate StepAt(rs: seq<Race>, es: seq<Step>, i: nat)
    requires i < |es| && |rs| == |es| + 1
  {
    CanDo(rs[i], es[i]) && rs[i + 1] == DoStep(rs[i], es[i])
  }

  /** Every outstanding snapshot holds no request or the recorded one. */
  ghost predicate SnapshotsAgree(r: Race) {
    forall worker | worker in r.snapshots ::
      && r.snapshots[worker].Candidate?
      && (r.stored.Candidate? && r.snapshots[worker].RequestedAt().Some? ==>
            r.snapshots[worker].RequestedAt() == r.stored.RequestedAt())
  }

  lemma {:induction false} CountersKeepRequest(s: Status, ops: seq<Op>)
    requires s.Candidate? && NoRequest(ops)
    ensures ApplyAll(s, ops).Candidate? && ApplyAll(s, ops).RequestedAt() == s.RequestedAt()
    decreases |ops|
  {
    if ops != [] {
      CountersKeepRequest(s, ops[..|ops| - 1]);
    }
  }

  lemma StepKeepsRequest(r: Race, e: Step)
    requires SnapshotsAgree(r) && CanDo(r, e)
    ensures SnapshotsAgree(DoStep(r, e))
    ensures DoStep(r, e).stored.Candidate? ==> r.stored.Candidate?
    ensures DoStep(r, e).stored.Candidate? && r.stored.RequestedAt().Some? ==>
              DoStep(r, e).stored.RequestedAt() == r.stored.RequestedAt()
  {
    if e.WriteCounters? {
      CountersKeepRequest(r.snapshots[e.worker], e.ops);
    }
  }

  /** However many workers write back stale snapshots, the first request recorded
      stays as long as the row is a candidate, and a settled row stays settled. */
  lemma {:induction false} FirstRequestIsNeverLost(rs: seq<Race>, es: seq<Step>, i: nat, j: nat)
    requires Races(rs, es) && rs[0].snapshots == map[] && i <= j < |rs|
    ensures SnapshotsAgree(rs[j])
    ensures rs[j].stored.Candidate? ==> rs[i].stored.Candidate?
    ensures rs[j].stored.Candidate? && rs[i].stored.RequestedAt().Some? ==>
              rs[j].stored.RequestedAt() == rs[i].stored.RequestedAt()
    decreases j
  {
    hide DoStep, CanDo;
    if j > 0 {
      FirstRequestIsNeverLost(rs, es, if i == j then j - 1 else i, j - 1);
      assert StepAt(rs, es, j - 1);
      StepKeepsRequest(rs[j - 1], es[j - 1]);
    }
  }
}
