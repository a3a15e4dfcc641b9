/**
The canonical history of an account: the state is the promoted deltas replayed, the
queue grows only by admission, and the tail a client pushes onto is the queue replayed.
*/
module CandidateHistory {
  import opened Wrappers
  import opened DeltaStatus
  import opened CandidateQueue
  import opened CandidateRuns

  // ----- the canonical history -----

  /** The state after applying the payloads in order, if each applies. */
  function Replay(net: Network, state: AccountState, ds: seq<Delta>): Option<AccountState> {
    if ds == [] then Some(state)
    else
      var before := Replay(net, state, ds[..|ds| - 1]);
      if before.None? then None else net.apply(before.value, ds[|ds| - 1].payload)
  }

  lemma ReplaySnoc(net: Network, state: AccountState, ds: seq<Delta>, d: Delta)
    ensures Replay(net, state, ds + [d]) ==
            var before := Replay(net, state, ds);
            if before.None? then None else net.apply(before.value, d.payload)
  {
    assert (ds + [d])[..|ds|] == ds;
  }

  /** `path` is a chain of commitments from the first state to the current one, and
      its payloads take the one to the other. */
  ghost predicate PathOk(net: Network, first: AccountState, a: Account) {
    && Chained(net.commit(first), a.path)
    && Tail(net.commit(first), a.path) == net.commit(a.state)
    && Replay(net, first, a.path) == Some(a.state)
  }

  lemma PromoteKeepsPath(net: Network, first: AccountState, a: Account, s: Snapshot, now: string)
    requires net.Binding() && PathOk(net, first, a) && Sound(net, s.delta)
    ensures
      var next := Promote(net, a, s, net.apply(s.delta.base, s.delta.payload).value, now);
      PathOk(net, first, next) && a.path <= next.path
  {
    var target := net.apply(s.delta.base, s.delta.payload).value;
    var d := s.delta.(next := Some(net.commit(target)), status := Canonical(now));
    hide StillThatKind, IndexOf, Restored, Chained, Replay;
    ChainedSnoc(net.commit(first), a.path, d);
    ReplaySnoc(net, first, a.path, d);
  }

  lemma StepKeepsPath(net: Network, first: AccountState, a: Account, e: Event)
    requires net.Binding() && Inv(net, a) && Enabled(net, a, e) && PathOk(net, first, a)
    ensures PathOk(net, first, Do(net, a, e)) && a.path <= Do(net, a, e).path
  {
    hide StoreOk, Replay, Promote, Sound;
    if e.PromoteRow? {
      WorkerHolds(net, a, e.handle);
      PromoteKeepsPath(net, first, a, a.worker[e.handle], e.promotedAt);
    } else {
      hide Do, Enabled;
      OthersKeepThePath(net, a, e);
    }
  }

  lemma OthersKeepThePath(net: Network, a: Account, e: Event)
    requires Enabled(net, a, e) && !e.PromoteRow?
    ensures Do(net, a, e).state == a.state && Do(net, a, e).path == a.path
  {
    hide Sound, IndexOf, Row, Classify, Pruned, Apply;
  }

  /** The stored state always is the first state with the canonical path applied. */
  lemma {:induction false} StateIsThePathReplayed(net: Network, ws: seq<Account>, es: seq<Event>, i: nat)
    requires net.Binding() && Run(net, ws, es) && Initial(ws[0]) && i < |ws|
    ensures PathOk(net, ws[0].state, ws[i])
  {
    hide Do, Enabled, StoreOk, WorkerOk;
    if i > 0 {
      StateIsThePathReplayed(net, ws, es, i - 1);
      RunKeeps(net, ws, es, i - 1);
      assert Steps(net, ws, es, i - 1);
      hide PathOk;
      StepKeepsPath(net, ws[0].state, ws[i - 1], es[i - 1]);
    }
  }

  lemma {:induction false} PathOnlyGrows(net: Network, ws: seq<Account>, es: seq<Event>, i: nat, j: nat)
    requires net.Binding() && Run(net, ws, es) && Initial(ws[0]) && i <= j < |ws|
    ensures ws[i].path <= ws[j].path
    decreases j
  {
    hide Do, Enabled, StoreOk, WorkerOk, PathOk;
    if i < j {
      PathOnlyGrows(net, ws, es, i, j - 1);
      RunKeeps(net, ws, es, j - 1);
      StateIsThePathReplayed(net, ws, es, j - 1);
      assert Steps(net, ws, es, j - 1);
      StepKeepsPath(net, ws[0].state, ws[j - 1], es[j - 1]);
    }
  }

  lemma {:induction false} ReplayConcat(net: Network, state: AccountState, ds: seq<Delta>, more: seq<Delta>)
    requires Replay(net, state, ds).Some?
    ensures Replay(net, state, ds + more) == Replay(net, Replay(net, state, ds).value, more)
    decreases |more|
  {
    if more == [] {
      assert ds + more == ds;
    } else {
      var before, last := more[..|more| - 1], more[|more| - 1];
      assert more == before + [last] && ds + more == (ds + before) + [last];
      ReplayConcat(net, state, ds, before);
      ReplaySnoc(net, state, ds + before, last);
      ReplaySnoc(net, Replay(net, state, ds).value, before, last);
    }
  }

  /** History is never rewound or replaced: every later state is the earlier one with the
      deltas promoted in between applied in order. */
  lemma LaterStatesBuildOnEarlier(net: Network, ws: seq<Account>, es: seq<Event>, i: nat, j: nat) returns (more: seq<Delta>)
    requires net.Binding() && Run(net, ws, es) && Initial(ws[0]) && i <= j < |ws|
    ensures ws[j].path == ws[i].path + more && Replay(net, ws[i].state, more) == Some(ws[j].state)
  {
    hide Steps, Replay;
    PathOnlyGrows(net, ws, es, i, j);
    StateIsThePathReplayed(net, ws, es, i);
    StateIsThePathReplayed(net, ws, es, j);
    more := ws[j].path[|ws[i].path|..];
    ReplayConcat(net, ws[0].state, ws[i].path, more);
  }

  /** The path is recorded: each of its deltas is the canonical row at its nonce, so no
      nonce is in it twice. */
  ghost predicate Recorded(a: Account) {
    && (forall i | 0 <= i < |a.path| :: a.path[i].status.Canonical? && Row(a, a.path[i].nonce) == Some(a.path[i]))
    && (forall i, j | 0 <= i < j < |a.path| :: a.path[i].nonce != a.path[j].nonce)
  }

  lemma PathChangesByPromotion(net: Network, a: Account, e: Event)
    requires Inv(net, a) && Enabled(net, a, e) && Do(net, a, e).path != a.path
    ensures e.PromoteRow? && Promotable(net, a, a.worker[e.handle]) && !HasCanonical(Row(a, a.worker[e.handle].delta.nonce))
    ensures Do(net, a, e).path == a.path + [a.worker[e.handle].delta.(status := Canonical(e.promotedAt))]
  {
    hide StoreOk, IndexOf, SnapshotOk, Restored, Sound, StillThatKind, Row;
    assert e.PromoteRow?;
    WorkerHolds(net, a, e.handle);
    PromotesItself(net, a.worker[e.handle].delta, e.promotedAt);
    KindIsNotCanonical(net, a, a.worker[e.handle]);
  }

  lemma KindIsNotCanonical(net: Network, a: Account, s: Snapshot)
    requires StoreOk(net, a) && StillThatKind(a, s)
    ensures !HasCanonical(Row(a, s.delta.nonce))
  {
    assert RowOk(net, a, s.delta.nonce);
    hide Sorted, Sound;
  }

  lemma PromotesItself(net: Network, d: Delta, now: string)
    requires Sound(net, d)
    ensures
      var target := net.apply(d.base, d.payload);
      target.Some? && d.(next := Some(net.commit(target.value)), status := Canonical(now)) == d.(status := Canonical(now))
  {
  }

  lemma CanonicalStays(archive: seq<Delta>, before: Option<Delta>, after: Option<Delta>)
    requires Lifecycle(archive, before, after) && HasCanonical(before)
    ensures after == before
  {
  }

  lemma RecordStays(a: Account, next: Account)
    requires Follows(a, next) && Recorded(a)
    ensures Recorded(next.(path := a.path))
  {
    forall i | 0 <= i < |a.path|
      ensures Row(next, a.path[i].nonce) == Row(a, a.path[i].nonce)
    {
      CanonicalStays(a.archive, Row(a, a.path[i].nonce), Row(next, a.path[i].nonce));
    }
  }

  lemma RecordGrows(a: Account, next: Account, d: Delta)
    requires Follows(a, next) && Recorded(a) && next.path == a.path + [d]
    requires d.status.Canonical? && Row(next, d.nonce) == Some(d) && !HasCanonical(Row(a, d.nonce))
    ensures Recorded(next)
  {
    hide Follows, RowAt;
    RecordStays(a, next);
    assert forall n: nat :: Row(next.(path := a.path), n) == Row(next, n);
  }

  lemma StepRecords(net: Network, a: Account, e: Event)
    requires Inv(net, a) && Enabled(net, a, e) && Recorded(a)
    ensures Recorded(Do(net, a, e))
  {
    hide Do, StoreOk, WorkerOk, Row, Recorded, Follows, Promotable, StillThatKind;
    var next := Do(net, a, e);
    StepKeeps(net, a, e);
    if next.path == a.path {
      RecordStays(a, next);
      assert next.(path := a.path) == next;
    } else {
      PathChangesByPromotion(net, a, e);
      PromotesExactlyWhen(net, a, e.handle, e.promotedAt);
      RecordGrows(a, next, a.worker[e.handle].delta.(status := Canonical(e.promotedAt)));
    }
  }

  lemma {:induction false} HistoryIsRecorded(net: Network, ws: seq<Account>, es: seq<Event>, i: nat)
    requires Run(net, ws, es) && Initial(ws[0]) && i < |ws|
    ensures Recorded(ws[i])
  {
    hide Do, Enabled, StoreOk, WorkerOk, Row;
    if i > 0 {
      HistoryIsRecorded(net, ws, es, i - 1);
      RunKeeps(net, ws, es, i - 1);
      assert Steps(net, ws, es, i - 1);
      StepRecords(net, ws[i - 1], es[i - 1]);
    }
  }

  // ----- the tail -----

  /** `reconstruct_tail`: replays the queue onto the state; `None` where it does
      not reproduce the tail commitment. */
  method ReconstructTail(net: Network, state: AccountState, queue: seq<Delta>) returns (r: Option<AccountState>)
    ensures r.Some? ==> Replay(net, state, queue) == r && net.commit(r.value) == Tail(net.commit(state), queue)
    ensures r.None? ==> Replay(net, state, queue).None? ||
                        net.commit(Replay(net, state, queue).value) != Tail(net.commit(state), queue)
  {
    if queue == [] {
      return Some(state);
    }
    var current := state;
    for i := 0 to |queue|
      invariant Replay(net, state, queue[..i]) == Some(current)
    {
      assert queue[..i + 1] == queue[..i] + [queue[i]];
      ReplaySnoc(net, state, queue[..i], queue[i]);
      var applied := net.apply(current, queue[i].payload);
      if applied.None? {
        NoReplay(net, state, queue, i + 1);
        return None;
      }
      current := applied.value;
    }
    assert queue[..|queue|] == queue;
    return if net.commit(current) == Tail(net.commit(state), queue) then Some(current) else None;
  }

  lemma {:induction false} NoReplay(net: Network, state: AccountState, queue: seq<Delta>, n: nat)
    requires n <= |queue| && Replay(net, state, queue[..n]).None?
    ensures Replay(net, state, queue).None?
    decreases |queue| - n
  {
    if n == |queue| {
      assert queue[..n] == queue;
    } else {
      assert queue[..n + 1] == queue[..n] + [queue[n]];
      ReplaySnoc(net, state, queue[..n], queue[n]);
      NoReplay(net, state, queue, n + 1);
    }
  }

  lemma {:induction false} ChainReplays(net: Network, state: AccountState, queue: seq<Delta>)
    requires net.Binding() && Chained(net.commit(state), queue)
    requires forall i | 0 <= i < |queue| :: Sound(net, queue[i])
    ensures Replay(net, state, queue).Some?
    ensures net.commit(Replay(net, state, queue).value) == Tail(net.commit(state), queue)
    decreases |queue|
  {
    if queue != [] {
      var before, d := queue[..|queue| - 1], queue[|queue| - 1];
      assert queue == before + [d];
      ChainedSnoc(net.commit(state), before, d);
      ChainReplays(net, state, before);
      assert Sound(net, queue[|queue| - 1]);
    }
  }

  /** In every reachable state whose queue chains, the tail can be rebuilt: replaying
      the canonical path and then the queue reaches a state of the tail commitment. */
  lemma ChainedQueueReplays(net: Network, ws: seq<Account>, es: seq<Event>, i: nat)
    requires net.Binding() && Run(net, ws, es) && Initial(ws[0]) && i < |ws|
    requires Chained(net.commit(ws[i].state), ws[i].queue)
    ensures
      var tail := Replay(net, ws[i].state, ws[i].queue);
      tail.Some? && net.commit(tail.value) == Tail(net.commit(ws[i].state), ws[i].queue)
  {
    var a := ws[i];
    RunKeeps(net, ws, es, i);
    forall k | 0 <= k < |a.queue|
      ensures Sound(net, a.queue[k])
    {
      QueuedIsSound(net, a, k);
    }
    ChainReplays(net, a.state, a.queue);
  }

  lemma QueuedIsSound(net: Network, a: Account, i: nat)
    requires StoreOk(net, a) && i < |a.queue|
    ensures Sound(net, a.queue[i])
  {
    RowAtIndex(a.queue, i);
    assert RowOk(net, a, a.queue[i].nonce);
  }

  // ----- what keeps the queue a chain -----

  lemma {:induction false} SameLinksChain(stored: Commitment, queue: seq<Delta>, other: seq<Delta>)
    requires |queue| == |other|
    requires forall i | 0 <= i < |queue| :: queue[i].prev == other[i].prev && queue[i].next == other[i].next
    ensures Chained(stored, queue) <==> Chained(stored, other)
    ensures Tail(stored, queue) == Tail(stored, other)
    decreases |queue|
  {
    if queue != [] && queue[0].next.Some? {
      SameLinksChain(queue[0].next.value, queue[1..], other[1..]);
    }
  }

  /** Nothing but the worker breaks the chain: a submission, a request, a read and
      a counter write keep it, and only a submission moves its tail. */
  lemma OthersKeepTheChain(net: Network, a: Account, e: Event)
    requires Inv(net, a) && Enabled(net, a, e) && Chained(net.commit(a.state), a.queue)
    requires !(e.Park? || e.FinishAbandon? || e.Drop? || e.PromoteRow?)
    ensures Do(net, a, e).state == a.state
    ensures Chained(net.commit(a.state), Do(net, a, e).queue)
    ensures !e.SubmitDelta? ==> Tail(net.commit(a.state), Do(net, a, e).queue) == Tail(net.commit(a.state), a.queue)
  {
    hide StoreOk, WorkerOk;
    match e
    case SubmitDelta(delta, maxPending, archives, open) =>
      hide Chained, Gate;
      GateIsExact(net.commit(a.state), a.queue, delta, maxPending);
    case RequestAbandon(nonce, next, now, owned) =>
      hide Chained, Tail;
      SameLinksChain(net.commit(a.state), a.queue, Abandon(a, nonce, next, now, owned).queue);
    case WriteCounter(nonce, op) =>
      hide Chained, Tail;
      CounterKeepsLinks(a, nonce, op);
    case ReadRow(_) =>
    case ReadArchived(_, _) =>
    case Prune(_) =>
    case EndPass =>
  }

  lemma CounterKeepsLinks(a: Account, nonce: nat, op: Op)
    requires OnCandidate(a, nonce) && !op.RequestAbandon?
    ensures
      var after := UpdateStatus(a, nonce, Apply(Held(a, nonce).status, op), false);
      && after.state == a.state
      && |after.queue| == |a.queue|
      && forall stored :: (Chained(stored, a.queue) <==> Chained(stored, after.queue)) && Tail(stored, a.queue) == Tail(stored, after.queue)
  {
    var after := UpdateStatus(a, nonce, Apply(Held(a, nonce).status, op), false);
    hide Chained, Tail;
    forall stored
      ensures Chained(stored, a.queue) <==> Chained(stored, after.queue)
      ensures Tail(stored, a.queue) == Tail(stored, after.queue)
    {
      SameLinksChain(stored, a.queue, after.queue);
    }
  }

  /** Promoting the head of a chained queue succeeds, advances the state to the
      head's post-state, and leaves a chained queue with the same tail. */
  lemma PromotingTheHeadKeepsTheChain(net: Network, a: Account, now: string)
    requires net.Binding() && Inv(net, a) && a.queue != [] && Chained(net.commit(a.state), a.queue)
    requires OnCandidate(a, a.queue[0].nonce)
    ensures Enabled(net, a, PromoteRow(OfRow(a.queue[0].nonce), now))
    ensures
      var head := a.queue[0];
      var next := Do(net, a, PromoteRow(OfRow(head.nonce), now));
      && next.state == net.apply(a.state, head.payload).value
      && next.queue == a.queue[1..]
      && Chained(net.commit(next.state), next.queue)
      && Tail(net.commit(next.state), next.queue) == Tail(net.commit(a.state), a.queue)
  {
    var head := a.queue[0];
    RowAtIndex(a.queue, 0);
    assert RowOk(net, a, head.nonce);
    WorkerHolds(net, a, OfRow(head.nonce));
    hide Sorted, RowOk, Restored, WorkerOk, StoreOk;
    TailOfRest(net.commit(a.state), a.queue);
    assert Without(a.queue, 0) == a.queue[1..];
  }

  /** With one configured depth, the queue never exceeds it. */
  lemma {:induction false} DepthIsBounded(net: Network, ws: seq<Account>, es: seq<Event>, maxPending: nat, i: nat)
    requires Run(net, ws, es) && Initial(ws[0]) && i < |ws|
    requires forall k | 0 <= k < |es| && es[k].SubmitDelta? :: es[k].maxPending == maxPending
    ensures |ws[i].queue| <= Room(maxPending)
  {
    if i > 0 {
      DepthIsBounded(net, ws, es, maxPending, i - 1);
      assert Steps(net, ws, es, i - 1);
      StepGrowsByAdmission(net, ws[i - 1], es[i - 1]);
    }
  }

  lemma StepGrowsByAdmission(net: Network, a: Account, e: Event)
    requires Enabled(net, a, e)
    ensures |Do(net, a, e).queue| <= |a.queue| || (e.SubmitDelta? && |Do(net, a, e).queue| <= Room(e.maxPending))
  {
    hide Chained, Classify, IndexOf, Sound, StillThatKind, Restored;
  }
}
