/**
An account's candidate queue and its canonical history (crates/server/src/storage:
mod.rs, filesystem.rs; services/candidate_chain.rs; jobs/canonicalization).

Deltas are queued as a chain of commitments from the canonical state. The storage
gate decides each submission under the account lock; the worker that holds the
lease works from snapshots of rows and promotes them, parks them, discards them or
writes their counters, while clients submit deltas and request abandons at any
moment. Each lock section is one event. The worker may hold any number of snapshots,
read at different moments, and act on them in any order.

Account states and payloads are opaque; `Network` says how a payload applies and
what a state commits to, and commitments identify states.
*/
module CandidateQueue {
  import opened Wrappers
  import opened DeltaStatus

  type Commitment = string
  type AccountState = string
  type Payload = string

  datatype Network = Network(apply: (AccountState, Payload) -> Option<AccountState>,
                             commit: AccountState -> Commitment) {
    ghost predicate Binding() {
      forall s, t :: commit(s) == commit(t) ==> s == t
    }
  }

  /** A row. `base` is the state the server applied the payload to when it
      acknowledged the delta. */
  datatype Delta = Delta(nonce: nat, prev: Commitment, next: Option<Commitment>, payload: Payload,
                         base: AccountState, status: Status)

  // ----- the chain -----

  /** Each queued delta builds on the post-state of the one before it. */
  predicate Chained(stored: Commitment, queue: seq<Delta>)
    decreases |queue|
  {
    queue == [] ||
    (queue[0].prev == stored && queue[0].next.Some? && Chained(queue[0].next.value, queue[1..]))
  }

  /** `first_unchained_candidate`: where the chain breaks. */
  method FirstUnchainedCandidate(stored: Commitment, queue: seq<Delta>) returns (r: Option<nat>)
    ensures r.None? <==> Chained(stored, queue)
    ensures r.Some? ==> r.value < |queue| && Chained(stored, queue[..r.value]) && !Chained(stored, queue[..r.value + 1])
  {
    var running := stored;
    for index := 0 to |queue|
      invariant Chained(stored, queue[..index]) && running == Tail(stored, queue[..index])
    {
      assert queue[..index + 1] == queue[..index] + [queue[index]];
      ChainedSnoc(stored, queue[..index], queue[index]);
      if queue[index].next.None? || queue[index].prev != running {
        PrefixChained(stored, queue, index + 1);
        return Some(index);
      }
      running := queue[index].next.value;
    }
    assert queue[..|queue|] == queue;
    return None;
  }

  /** `tail_commitment`: the commitment a new delta must build on. */
  function Tail(stored: Commitment, queue: seq<Delta>): Commitment {
    if queue != [] && queue[|queue| - 1].next.Some? then queue[|queue| - 1].next.value else stored
  }

  lemma {:induction false} ChainedSnoc(stored: Commitment, queue: seq<Delta>, d: Delta)
    ensures Chained(stored, queue + [d]) <==>
            Chained(stored, queue) && d.prev == Tail(stored, queue) && d.next.Some?
    decreases |queue|
  {
    if queue == [] {
      assert (queue + [d])[1..] == [];
    } else {
      assert (queue + [d])[1..] == queue[1..] + [d];
      if queue[0].next.Some? {
        ChainedSnoc(queue[0].next.value, queue[1..], d);
        if Chained(queue[0].next.value, queue[1..]) {
          TailOfRest(stored, queue);
        }
      }
    }
  }

  lemma TailOfRest(stored: Commitment, queue: seq<Delta>)
    requires queue != [] && queue[0].next.Some? && Chained(queue[0].next.value, queue[1..])
    ensures Tail(queue[0].next.value, queue[1..]) == Tail(stored, queue)
  {
    if |queue| > 1 {
      LastIsChained(queue[0].next.value, queue[1..]);
    }
  }

  lemma {:induction false} LastIsChained(stored: Commitment, queue: seq<Delta>)
    requires queue != [] && Chained(stored, queue)
    ensures queue[|queue| - 1].next == Some(Tail(stored, queue))
    decreases |queue|
  {
    if |queue| > 1 {
      LastIsChained(queue[0].next.value, queue[1..]);
    }
  }

  lemma {:induction false} PrefixChained(stored: Commitment, queue: seq<Delta>, n: nat)
    requires n <= |queue|
    ensures Chained(stored, queue) ==> Chained(stored, queue[..n])
    decreases |queue| - n
  {
    if n == |queue| {
      assert queue[..n] == queue;
    } else {
      PrefixChained(stored, queue, n + 1);
      assert queue[..n + 1] == queue[..n] + [queue[n]];
      ChainedSnoc(stored, queue[..n], queue[n]);
    }
  }

  // ----- admission -----

  datatype Position = AtTail | Competing | Unrelated

  /** `classify_chain_position`. */
  function Classify(stored: Commitment, queue: seq<Delta>, prev: Commitment): Position {
    if queue == [] then
      if prev == stored then AtTail else Unrelated
    else if queue[|queue| - 1].next == Some(prev) then
      AtTail
    else if prev == stored || exists i | 0 <= i < |queue| :: queue[i].next == Some(prev) then
      Competing
    else
      Unrelated
  }

  datatype Submission = Submitted | Conflict | CommitmentMismatch(expected: Commitment) | Closed

  function Room(maxPending: nat): nat {
    if maxPending == 0 then 1 else maxPending
  }

  /** `gate_candidate_submission`; `None` lets the submission through. */
  function Gate(stored: Commitment, queue: seq<Delta>, delta: Delta, maxPending: nat): Option<Submission> {
    if |queue| >= Room(maxPending) then Some(Conflict)
    else if !Chained(stored, queue) then Some(Conflict)
    else
      match Classify(stored, queue, delta.prev)
      case Competing => Some(Conflict)
      case Unrelated => Some(CommitmentMismatch(stored))
      case AtTail =>
        if queue != [] && delta.nonce <= queue[|queue| - 1].nonce then Some(Conflict) else None
  }

  /** The gate admits exactly what keeps the queue a chain within its depth and
      nonce order, and reports a mismatch exactly when a sound queue with room
      knows no state of that commitment. */
  lemma GateIsExact(stored: Commitment, queue: seq<Delta>, delta: Delta, maxPending: nat)
    requires delta.next.Some?
    ensures Gate(stored, queue, delta, maxPending).None? <==>
      && |queue + [delta]| <= Room(maxPending)
      && Chained(stored, queue + [delta])
      && (queue != [] ==> queue[|queue| - 1].nonce < delta.nonce)
    ensures Gate(stored, queue, delta, maxPending) == Some(CommitmentMismatch(stored)) <==>
      && |queue| < Room(maxPending)
      && Chained(stored, queue)
      && delta.prev != stored
      && forall i | 0 <= i < |queue| :: queue[i].next != Some(delta.prev)
  {
    ChainedSnoc(stored, queue, delta);
    if queue != [] && Chained(stored, queue) {
      LastIsChained(stored, queue);
    }
  }

  // ----- the account and its lock sections -----

  /** A row the worker read, and whether it read it from the archive. */
  datatype Snapshot = Snapshot(delta: Delta, archived: bool)

  /** A pass holds one snapshot per nonce, and any number of archived rows. */
  datatype Handle = OfRow(nonce: nat) | OfArchive(slot: nat)

  /** `queue` holds the candidate rows in nonce order and `settled` all other
      rows. `archive` holds superseded rows, `path` the deltas whose promotion
      moved the state, in order, `worker` the snapshots of the current pass. */
  datatype Account = Account(state: AccountState, queue: seq<Delta>, settled: map<nat, Delta>,
                             archive: seq<Delta>, path: seq<Delta>, worker: map<Handle, Snapshot>)

  function IndexOf(queue: seq<Delta>, nonce: nat): (r: Option<nat>)
    ensures r.Some? ==> r.value < |queue| && queue[r.value].nonce == nonce
    ensures r.None? ==> forall i | 0 <= i < |queue| :: queue[i].nonce != nonce
  {
    if queue == [] then None
    else if queue[|queue| - 1].nonce == nonce then Some(|queue| - 1)
    else IndexOf(queue[..|queue| - 1], nonce)
  }

  function Without(queue: seq<Delta>, i: nat): seq<Delta>
    requires i < |queue|
  {
    queue[..i] + queue[i + 1..]
  }

  predicate IsParked(s: Status) {
    s.Retained? || s.IsClientAbandoned()
  }

  /** `submit_candidate`. `open` says that the account is active and that no
      execution holds it. */
  function Submit(net: Network, a: Account, delta: Delta, maxPending: nat, archives: bool, open: bool): (Account, Submission) {
    var refused := Gate(net.commit(a.state), a.queue, delta, maxPending);
    if !open then (a, Closed)
    else if refused.Some? then (a, refused.value)
    else if delta.nonce in a.settled && !IsParked(a.settled[delta.nonce].status) then (a, Conflict)
    else
      var superseded := if delta.nonce in a.settled && archives then [a.settled[delta.nonce]] else [];
      (a.(queue := a.queue + [delta], settled := a.settled - {delta.nonce}, archive := a.archive + superseded), Submitted)
  }

  /** `request_candidate_abandon`. `owned` says that an execution owns the row. */
  function Abandon(a: Account, nonce: nat, next: Commitment, now: string, owned: bool): Account {
    var at := IndexOf(a.queue, nonce);
    if owned || at.None? || a.queue[at.value].next != Some(next) then a
    else
      var row := a.queue[at.value];
      a.(queue := a.queue[at.value := row.(status := row.status.WithAbandonRequested(now))])
  }

  /** `update_candidate_status`: overwrites a candidate with a status computed
      from a snapshot, carrying over a request recorded meanwhile. A row that
      carries a request is never parked. */
  function UpdateStatus(a: Account, nonce: nat, status: Status, owned: bool): Account {
    var at := IndexOf(a.queue, nonce);
    if at.None? then a
    else
      var row := a.queue[at.value];
      if !status.Candidate? && owned then a
      else if status.Retained? && row.status.RequestedAt().Some? then a
      else
        var updated := row.(status := status.WithAbandonRequestPreservedFrom(row.status.RequestedAt()));
        if updated.status.Candidate? then a.(queue := a.queue[at.value := updated])
        else a.(queue := Without(a.queue, at.value), settled := a.settled[nonce := updated])
  }

  /** `discard_candidate` on a candidate or, at the end of its retention, a
      retained row. */
  function Discard(a: Account, nonce: nat, retained: bool, owned: bool): Account {
    if retained then
      if nonce in a.settled && a.settled[nonce].status.Retained? then a.(settled := a.settled - {nonce}) else a
    else
      var at := IndexOf(a.queue, nonce);
      if owned || at.None? then a else a.(queue := Without(a.queue, at.value))
  }

  /** Whether the row at the snapshot's nonce still is in the lifecycle kind the
      worker read, as `PromotableKind::matches` asks. For an archived row: it may
      be absent or parked. */
  predicate StillThatKind(a: Account, s: Snapshot) {
    var nonce := s.delta.nonce;
    if s.archived then
      IndexOf(a.queue, nonce).None? && (nonce in a.settled ==> IsParked(a.settled[nonce].status))
    else if s.delta.status.Retained? then
      nonce in a.settled && a.settled[nonce].status.Retained?
    else if s.delta.status.IsClientAbandoned() then
      nonce in a.settled && a.settled[nonce].status.IsClientAbandoned()
    else
      IndexOf(a.queue, nonce).Some?
  }

  predicate SameRow(d: Delta, e: Delta) {
    d.nonce == e.nonce && d.prev == e.prev && d.next == e.next
  }

  function Restored(archive: seq<Delta>, d: Delta): seq<Delta> {
    if archive == [] then []
    else
      var rest := Restored(archive[..|archive| - 1], d);
      if SameRow(archive[|archive| - 1], d) then rest else rest + [archive[|archive| - 1]]
  }

  /** `promote_candidate`: writes `target` and the canonical row, provided the row
      still is the one verified and the state still sits at its base (or already
      at its target, for a row that is not archived). */
  function Promote(net: Network, a: Account, s: Snapshot, target: AccountState, now: string): Account {
    var d := s.delta.(next := Some(net.commit(target)), status := Canonical(now));
    var stored := net.commit(a.state);
    var resumed := !s.archived && stored == net.commit(target);
    var at := IndexOf(a.queue, d.nonce);
    if !StillThatKind(a, s) then a
    else if s.archived && Restored(a.archive, d) == a.archive then a
    else if !resumed && stored != d.prev then a
    else
      var queue := if at.Some? then Without(a.queue, at.value) else a.queue;
      var archive :=
        if !s.archived then a.archive
        else Restored(a.archive, d) + if d.nonce in a.settled then [a.settled[d.nonce]] else [];
      Account(target, queue, a.settled[d.nonce := d], archive, if resumed then a.path else a.path + [d], a.worker)
  }

  // ----- events -----

  datatype Event =
    | SubmitDelta(delta: Delta, maxPending: nat, archives: bool, open: bool)
    | RequestAbandon(nonce: nat, next: Commitment, at: string, owned: bool)
    | ReadRow(nonce: nat)
    | ReadArchived(index: nat, slot: nat)
    | Prune(kept: set<nat>)
    | EndPass
    | WriteCounter(nonce: nat, op: Op)
    | Park(nonce: nat, reason: RetainReason, parkedAt: string, owned: bool)
    | FinishAbandon(nonce: nat, finishedAt: string, owned: bool)
    | Drop(nonce: nat, owned: bool)
    | PromoteRow(handle: Handle, promotedAt: string)

  /** The server acknowledged the delta: its payload applies to a state of the
      named base, and `next` is what the result commits to. */
  predicate Sound(net: Network, d: Delta) {
    var post := net.apply(d.base, d.payload);
    net.commit(d.base) == d.prev && post.Some? && d.next == Some(net.commit(post.value))
  }

  predicate Enabled(net: Network, a: Account, e: Event) {
    match e
    case SubmitDelta(delta, _, _, _) =>
      Sound(net, delta) && delta.status.Candidate? && delta.status == NewCandidate(delta.status.timestamp)
    case RequestAbandon(_, _, _, _) => true
    case ReadRow(nonce) => HasCandidate(Row(a, nonce)) || HasParked(Row(a, nonce))
    case ReadArchived(index, _) => index < |a.archive|
    case Prune(_) => forall h | h in a.worker :: h.OfRow?
    case EndPass => true
    case WriteCounter(nonce, op) => OnCandidate(a, nonce) && !op.RequestAbandon?
    case Park(nonce, _, _, _) => OnCandidate(a, nonce) && Held(a, nonce).status.RequestedAt().None?
    case FinishAbandon(nonce, _, _) => OnCandidate(a, nonce) && Held(a, nonce).status.RequestedAt().Some?
    case Drop(nonce, _) => OfRow(nonce) in a.worker && (Held(a, nonce).status.Candidate? || Held(a, nonce).status.Retained?)
    case PromoteRow(h, _) => h in a.worker && net.apply(a.worker[h].delta.base, a.worker[h].delta.payload).Some?
  }

  /** The snapshot of a row. */
  function Held(a: Account, nonce: nat): Delta
    requires OfRow(nonce) in a.worker
  {
    a.worker[OfRow(nonce)].delta
  }

  predicate OnCandidate(a: Account, nonce: nat) {
    OfRow(nonce) in a.worker && Held(a, nonce).status.Candidate?
  }

  /** The archive without the rows past their retention. */
  function Pruned(archive: seq<Delta>, kept: set<nat>): seq<Delta> {
    if archive == [] then []
    else
      var n := |archive| - 1;
      Pruned(archive[..n], kept) + if n in kept then [archive[n]] else []
  }

  /** The account without one of the worker's snapshots. */
  function Done(a: Account, h: Handle): Account {
    a.(worker := a.worker - {h})
  }

  function Do(net: Network, a: Account, e: Event): Account
    requires Enabled(net, a, e)
  {
    match e
    case SubmitDelta(delta, maxPending, archives, open) => Submit(net, a, delta, maxPending, archives, open).0
    case RequestAbandon(nonce, next, now, owned) => Abandon(a, nonce, next, now, owned)
    case ReadRow(nonce) => a.(worker := a.worker[OfRow(nonce) := Snapshot(Row(a, nonce).value, false)])
    case ReadArchived(index, slot) => a.(worker := a.worker[OfArchive(slot) := Snapshot(a.archive[index], true)])
    case Prune(kept) => a.(archive := Pruned(a.archive, kept))
    case EndPass => a.(worker := map[])
    case WriteCounter(nonce, op) =>
      var d := Held(a, nonce);
      var status := Apply(d.status, op);
      UpdateStatus(a, nonce, status, false).(worker := a.worker[OfRow(nonce) := Snapshot(d.(status := status), false)])
    case Park(nonce, reason, now, owned) =>
      Done(UpdateStatus(a, nonce, Retained(now, Some(reason)), owned), OfRow(nonce))
    case FinishAbandon(nonce, now, owned) =>
      Done(UpdateStatus(a, nonce, Discarded(now, Some(ClientAbandoned)), owned), OfRow(nonce))
    case Drop(nonce, owned) =>
      Done(Discard(a, nonce, Held(a, nonce).status.Retained?, owned), OfRow(nonce))
    case PromoteRow(h, now) =>
      var s := a.worker[h];
      Done(Promote(net, a, s, net.apply(s.delta.base, s.delta.payload).value, now), h)
  }

  // ----- what one lock section does to one nonce -----

  predicate Sorted(queue: seq<Delta>) {
    forall i, j | 0 <= i < j < |queue| :: queue[i].nonce < queue[j].nonce
  }

  function RowAt(queue: seq<Delta>, nonce: nat): (r: Option<Delta>)
    ensures r.Some? ==> r.value.nonce == nonce && r.value in queue
  {
    var at := IndexOf(queue, nonce);
    if at.Some? then Some(queue[at.value]) else None
  }

  lemma RowAtIndex(queue: seq<Delta>, i: nat)
    requires Sorted(queue) && i < |queue|
    ensures IndexOf(queue, queue[i].nonce) == Some(i) && RowAt(queue, queue[i].nonce) == Some(queue[i])
  {
  }

  lemma RowAtIs(queue: seq<Delta>, d: Delta)
    requires Sorted(queue) && d in queue
    ensures RowAt(queue, d.nonce) == Some(d)
  {
    var i :| 0 <= i < |queue| && queue[i] == d;
    RowAtIndex(queue, i);
  }

  lemma RowAtNone(queue: seq<Delta>, nonce: nat)
    requires forall d | d in queue :: d.nonce != nonce
    ensures RowAt(queue, nonce).None?
  {
  }

  lemma RowAtReplaced(queue: seq<Delta>, i: nat, d: Delta, nonce: nat)
    requires Sorted(queue) && i < |queue| && d.nonce == queue[i].nonce
    ensures Sorted(queue[i := d])
    ensures RowAt(queue[i := d], nonce) == if nonce == d.nonce then Some(d) else RowAt(queue, nonce)
  {
    var next := queue[i := d];
    hide RowAt, IndexOf;
    if nonce == d.nonce {
      RowAtIs(next, next[i]);
    } else if RowAt(queue, nonce).Some? {
      var j :| 0 <= j < |queue| && queue[j] == RowAt(queue, nonce).value;
      RowAtIs(next, next[j]);
    } else {
      forall e | e in next ensures e.nonce != nonce {
        if e != d {
          RowAtIs(queue, e);
        }
      }
      RowAtNone(next, nonce);
    }
  }

  lemma WithoutHolds(queue: seq<Delta>, i: nat, d: Delta)
    requires Sorted(queue) && i < |queue|
    ensures Sorted(Without(queue, i))
    ensures d in Without(queue, i) <==> d in queue && d.nonce != queue[i].nonce
  {
    var next := Without(queue, i);
    assert forall j | 0 <= j < |next| :: next[j] == if j < i then queue[j] else queue[j + 1];
    if d in queue && d.nonce != queue[i].nonce {
      var j :| 0 <= j < |queue| && queue[j] == d;
      assert next[if j < i then j else j - 1] == d;
    }
  }

  lemma RowAtWithout(queue: seq<Delta>, i: nat, nonce: nat)
    requires Sorted(queue) && i < |queue|
    ensures Sorted(Without(queue, i))
    ensures RowAt(Without(queue, i), nonce) == if nonce == queue[i].nonce then None else RowAt(queue, nonce)
  {
    hide RowAt, IndexOf, Without, Sorted;
    var next := Without(queue, i);
    WithoutHolds(queue, i, queue[i]);
    if nonce != queue[i].nonce && RowAt(queue, nonce).Some? {
      WithoutHolds(queue, i, RowAt(queue, nonce).value);
      RowAtIs(next, RowAt(queue, nonce).value);
    } else {
      forall e | e in next ensures e.nonce != nonce {
        WithoutHolds(queue, i, e);
        RowAtIs(queue, e);
      }
      RowAtNone(next, nonce);
    }
  }

  lemma RowAtAppended(queue: seq<Delta>, d: Delta, nonce: nat)
    requires Sorted(queue) && (queue != [] ==> queue[|queue| - 1].nonce < d.nonce)
    ensures Sorted(queue + [d])
    ensures RowAt(queue, d.nonce).None?
    ensures RowAt(queue + [d], nonce) == if nonce == d.nonce then Some(d) else RowAt(queue, nonce)
  {
    var next := queue + [d];
    hide RowAt, IndexOf;
    RowAtNone(queue, d.nonce);
    if nonce == d.nonce {
      RowAtIs(next, next[|queue|]);
    } else if RowAt(queue, nonce).Some? {
      RowAtIs(next, RowAt(queue, nonce).value);
    } else {
      forall e | e in next ensures e.nonce != nonce {
        if e != d {
          RowAtIs(queue, e);
        }
      }
      RowAtNone(next, nonce);
    }
  }

  /** The row at a nonce, whatever its status. */
  function Row(a: Account, nonce: nat): (r: Option<Delta>) {
    var queued := RowAt(a.queue, nonce);
    if queued.Some? then queued else if nonce in a.settled then Some(a.settled[nonce]) else None
  }

  predicate HasCandidate(row: Option<Delta>) {
    row.Some? && row.value.status.Candidate?
  }

  predicate HasParked(row: Option<Delta>) {
    row.Some? && IsParked(row.value.status)
  }

  predicate HasCanonical(row: Option<Delta>) {
    row.Some? && row.value.status.Canonical?
  }

  /** The store is well formed: `queue` is in nonce order and holds the candidates,
      `settled` every other row. */
  predicate RowOk(net: Network, a: Account, nonce: nat) {
    && (RowAt(a.queue, nonce).Some? ==>
          nonce !in a.settled && RowAt(a.queue, nonce).value.status.Candidate? && Sound(net, RowAt(a.queue, nonce).value))
    && (nonce in a.settled ==>
          a.settled[nonce].nonce == nonce && !a.settled[nonce].status.Candidate? && Sound(net, a.settled[nonce]))
  }

  ghost predicate StoreOk(net: Network, a: Account) {
    && Sorted(a.queue)
    && (forall nonce: nat :: RowOk(net, a, nonce))
    && (forall d | d in a.archive :: Sound(net, d) && IsParked(d.status))
  }

  /** `next` differs from `a` in the row at `nonce` only, which is now `row`. */
  ghost predicate Writes(a: Account, next: Account, nonce: nat, row: Option<Delta>) {
    && Sorted(next.queue)
    && (forall n: nat :: RowAt(next.queue, n) ==
                         if n == nonce then (if row.Some? && row.value.status.Candidate? then row else None)
                         else RowAt(a.queue, n))
    && next.settled == if row.Some? && !row.value.status.Candidate? then a.settled[nonce := row.value]
                       else a.settled - {nonce}
  }

  lemma WritesKeepsRows(net: Network, a: Account, next: Account, nonce: nat, row: Option<Delta>)
    requires StoreOk(net, a) && Writes(a, next, nonce, row)
    requires row.Some? ==> row.value.nonce == nonce && Sound(net, row.value)
    ensures Sorted(next.queue) && forall n: nat :: RowOk(net, next, n)
    ensures forall n: nat :: Row(next, n) == if n == nonce then row else Row(a, n)
  {
    hide RowAt, IndexOf, Sorted, Sound;
    forall n: nat
      ensures RowOk(net, next, n) && Row(next, n) == if n == nonce then row else Row(a, n)
    {
      assert RowOk(net, a, n);
    }
  }

  lemma SubmitWrites(net: Network, a: Account, delta: Delta, maxPending: nat, archives: bool, open: bool)
    requires StoreOk(net, a) && delta.status.Candidate?
    requires Submit(net, a, delta, maxPending, archives, open).1 == Submitted
    ensures Writes(a, Submit(net, a, delta, maxPending, archives, open).0, delta.nonce, Some(delta))
  {
    hide RowAt, IndexOf, Sorted, Sound, Chained, Classify;
    RowAtAppended(a.queue, delta, 0);
    forall n: nat {
      RowAtAppended(a.queue, delta, n);
    }
  }

  lemma AbandonWrites(net: Network, a: Account, nonce: nat, next: Commitment, now: string, owned: bool)
    requires StoreOk(net, a)
    ensures
      var row := Row(a, nonce);
      var after := Abandon(a, nonce, next, now, owned);
      after == a || (row.Some? && row.value.status.Candidate? &&
                     Writes(a, after, nonce, Some(row.value.(status := row.value.status.WithAbandonRequested(now)))))
  {
    hide Sorted, Sound;
    var at := IndexOf(a.queue, nonce);
    assert RowOk(net, a, nonce);
    if at.Some? && !owned && a.queue[at.value].next == Some(next) {
      var row := a.queue[at.value];
      var updated := row.(status := row.status.WithAbandonRequested(now));
      forall n: nat {
        RowAtReplaced(a.queue, at.value, updated, n);
      }
      assert a.settled - {nonce} == a.settled;
    }
  }

  lemma UpdateWrites(net: Network, a: Account, nonce: nat, status: Status, owned: bool)
    requires StoreOk(net, a)
    ensures
      var row := Row(a, nonce);
      var after := UpdateStatus(a, nonce, status, owned);
      after == a || (row.Some? && row.value.status.Candidate? && !(status.Retained? && row.value.status.RequestedAt().Some?) &&
                     Writes(a, after, nonce, Some(Updated(row.value, status))))
    ensures
      status.Candidate? && RowAt(a.queue, nonce).Some? ==>
        Writes(a, UpdateStatus(a, nonce, status, owned), nonce, Some(Updated(RowAt(a.queue, nonce).value, status)))
  {
    hide Sorted, Sound;
    var at := IndexOf(a.queue, nonce);
    assert RowOk(net, a, nonce);
    if at.Some? {
      var updated := Updated(a.queue[at.value], status);
      RowAtWithout(a.queue, at.value, 0);
      if updated.status.Candidate? {
        forall n: nat {
          RowAtReplaced(a.queue, at.value, updated, n);
        }
      } else {
        forall n: nat {
          RowAtWithout(a.queue, at.value, n);
        }
      }
      assert a.settled - {nonce} == a.settled;
    }
  }

  function Updated(row: Delta, status: Status): Delta {
    row.(status := status.WithAbandonRequestPreservedFrom(row.status.RequestedAt()))
  }

  lemma DiscardWrites(net: Network, a: Account, nonce: nat, retained: bool, owned: bool)
    requires StoreOk(net, a)
    ensures
      var row := Row(a, nonce);
      var after := Discard(a, nonce, retained, owned);
      after == a || (row.Some? && (row.value.status.Candidate? || row.value.status.Retained?) && Writes(a, after, nonce, None))
  {
    hide Sorted, Sound;
    var at := IndexOf(a.queue, nonce);
    assert RowOk(net, a, nonce);
    if at.Some? {
      forall n: nat {
        RowAtWithout(a.queue, at.value, n);
      }
      assert a.settled - {nonce} == a.settled;
    }
  }

  lemma PromoteWrites(net: Network, a: Account, s: Snapshot, target: AccountState, now: string)
    requires StoreOk(net, a)
    ensures
      var row := Row(a, s.delta.nonce);
      var d := s.delta.(next := Some(net.commit(target)), status := Canonical(now));
      var after := Promote(net, a, s, target, now);
      after == a || (StillThatKind(a, s) && Writes(a, after, s.delta.nonce, Some(d)))
  {
    hide Sorted, Sound, Restored;
    var at := IndexOf(a.queue, s.delta.nonce);
    if at.Some? {
      RowAtWithout(a.queue, at.value, 0);
      forall n: nat {
        RowAtWithout(a.queue, at.value, n);
      }
    }
  }
}
