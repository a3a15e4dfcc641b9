/**
What every step of the candidate queue keeps, over whole runs: the store is well
formed, the worker's snapshots are of rows that are still there or have moved on,
every row follows its lifecycle, and each lock section takes effect.
*/
module CandidateRuns {
  import opened Wrappers
  import opened DeltaStatus
  import opened CandidateQueue

  // ----- what every step keeps -----

  /** The same delta, whatever its status. */
  predicate SameDelta(d: Delta, e: Delta) {
    d.(status := e.status) == e
  }

  predicate SameKind(s: Status, t: Status) {
    (s.Retained? && t.Retained?) || (s.IsClientAbandoned() && t.IsClientAbandoned())
  }

  /** How the row at a snapshot's nonce relates to the snapshot: the candidate the
      worker read is still there, at most with a newer request, and a parked row of
      the kind it read is the row it read. */
  predicate SnapshotOk(row: Option<Delta>, s: Snapshot) {
    if s.archived then
      IsParked(s.delta.status)
    else if s.delta.status.Candidate? then
      HasCandidate(row) && SameDelta(row.value, s.delta) &&
      (s.delta.status.RequestedAt().None? || s.delta.status.RequestedAt() == row.value.status.RequestedAt())
    else
      IsParked(s.delta.status) &&
      (row.Some? && SameKind(row.value.status, s.delta.status) ==> row.value == s.delta)
  }

  /** An archived row the worker read is still in the archive, or its nonce was
      settled for good meanwhile. */
  ghost predicate HandleOk(net: Network, a: Account, h: Handle)
    requires h in a.worker
  {
    var s := a.worker[h];
    && Sound(net, s.delta)
    && (h.OfArchive? <==> s.archived)
    && (h.OfRow? ==> s.delta.nonce == h.nonce)
    && SnapshotOk(Row(a, s.delta.nonce), s)
    && (s.archived ==> s.delta in a.archive || HasCanonical(Row(a, s.delta.nonce)))
  }

  ghost predicate WorkerOk(net: Network, a: Account) {
    forall h | h in a.worker :: HandleOk(net, a, h)
  }

  ghost predicate Inv(net: Network, a: Account) {
    StoreOk(net, a) && WorkerOk(net, a)
  }

  /** What one step may do to the row at one nonce. */
  ghost predicate Lifecycle(archive: seq<Delta>, before: Option<Delta>, after: Option<Delta>) {
    || before == after
    || (HasCandidate(after) && (before.None? || HasParked(before)))
    || (HasCandidate(before) && after.Some? && SameDelta(before.value, after.value) &&
        match after.value.status
        case Candidate(_, _, _, requested, _) => before.value.status.RequestedAt().Some? ==> requested == before.value.status.RequestedAt()
        case Retained(_, _) => before.value.status.RequestedAt().None?
        case Discarded(_, reason) => reason.Some? && before.value.status.RequestedAt().Some?
        case Canonical(_) => true
        case Pending(_, _) => false)
    || (HasParked(before) && after.Some? && after.value.status.Canonical? && SameDelta(before.value, after.value))
    || ((before.None? || HasParked(before)) && after.Some? && after.value.status.Canonical? &&
        exists d | d in archive :: SameDelta(d, after.value))
    || ((HasCandidate(before) || (before.Some? && before.value.status.Retained?)) && after.None?)
  }

  ghost predicate Follows(a: Account, next: Account) {
    forall n: nat :: Lifecycle(a.archive, Row(a, n), Row(next, n))
  }

  lemma WritesFollows(net: Network, a: Account, next: Account, nonce: nat, row: Option<Delta>)
    requires StoreOk(net, a) && Writes(a, next, nonce, row)
    requires row.Some? ==> row.value.nonce == nonce && Sound(net, row.value)
    requires Lifecycle(a.archive, Row(a, nonce), row)
    requires forall d | d in next.archive :: Sound(net, d) && IsParked(d.status)
    ensures StoreOk(net, next) && Row(next, nonce) == row && Follows(a, next)
    ensures forall n: nat | n != nonce :: Row(next, n) == Row(a, n)
  {
    WritesKeepsRows(net, a, next, nonce, row);
    hide Writes, Row, RowOk, Sorted, Lifecycle, Sound;
    forall n: nat
      ensures Lifecycle(a.archive, Row(a, n), Row(next, n))
    {
      if n != nonce {
        LifecycleStays(a.archive, Row(a, n));
      }
    }
  }

  lemma LifecycleStays(archive: seq<Delta>, row: Option<Delta>)
    ensures Lifecycle(archive, row, row)
  {
  }

  /** `next` holds no snapshot that `a` does not hold. */
  predicate NoNewSnapshots(a: Account, next: Account) {
    forall h | h in next.worker :: h in a.worker && next.worker[h] == a.worker[h]
  }

  /** A write to a row that is not canonical keeps the snapshots good if the one of that
      row, where it is still held, agrees with what was written. */
  lemma WorkerStays(net: Network, a: Account, next: Account, nonce: nat, row: Option<Delta>)
    requires WorkerOk(net, a) && NoNewSnapshots(a, next)
    requires Row(next, nonce) == row && forall n: nat | n != nonce :: Row(next, n) == Row(a, n)
    requires !HasCanonical(Row(a, nonce))
    requires forall d | d in a.archive :: d in next.archive || (d.nonce == nonce && HasCanonical(row))
    requires OfRow(nonce) in next.worker && SnapshotOk(Row(a, nonce), next.worker[OfRow(nonce)]) ==>
               SnapshotOk(row, next.worker[OfRow(nonce)])
    ensures WorkerOk(net, next)
  {
    hide Row, Sound;
    forall h | h in next.worker
      ensures HandleOk(net, next, h)
    {
      assert HandleOk(net, a, h);
    }
  }

  lemma WorkerStaysSame(net: Network, a: Account, next: Account)
    requires WorkerOk(net, a) && NoNewSnapshots(a, next) && next.archive == a.archive
    requires forall n: nat :: Row(next, n) == Row(a, n)
    ensures WorkerOk(net, next)
  {
    hide Row, Sound, SnapshotOk;
    forall h | h in next.worker
      ensures HandleOk(net, next, h)
    {
      assert HandleOk(net, a, h);
    }
  }

  /** What an admitted submission finds at its nonce, and what it archives. */
  lemma AdmittedFinds(net: Network, a: Account, delta: Delta, maxPending: nat, archives: bool, open: bool)
    requires StoreOk(net, a) && Submit(net, a, delta, maxPending, archives, open).1 == Submitted
    ensures Row(a, delta.nonce).None? || HasParked(Row(a, delta.nonce))
    ensures
      var next := Submit(net, a, delta, maxPending, archives, open).0;
      && next.worker == a.worker
      && (forall d | d in a.archive :: d in next.archive)
      && (forall d | d in next.archive :: Sound(net, d) && IsParked(d.status))
  {
    hide Sound, Chained, Classify;
    RowAtAppended(a.queue, delta, 0);
    assert RowOk(net, a, delta.nonce);
  }

  lemma SubmitKeeps(net: Network, a: Account, delta: Delta, maxPending: nat, archives: bool, open: bool)
    requires Inv(net, a) && Sound(net, delta) && delta.status.Candidate?
    requires Submit(net, a, delta, maxPending, archives, open).1 == Submitted
    ensures
      var next := Submit(net, a, delta, maxPending, archives, open).0;
      Inv(net, next) && Follows(a, next)
  {
    hide Writes, Row, StoreOk, WorkerOk, Sound, Follows, Submit;
    var next := Submit(net, a, delta, maxPending, archives, open).0;
    SubmitWrites(net, a, delta, maxPending, archives, open);
    AdmittedFinds(net, a, delta, maxPending, archives, open);
    WritesFollows(net, a, next, delta.nonce, Some(delta));
    WorkerStays(net, a, next, delta.nonce, Some(delta));
  }

  lemma AbandonKeeps(net: Network, a: Account, nonce: nat, next: Commitment, now: string, owned: bool)
    requires Inv(net, a)
    ensures
      var after := Abandon(a, nonce, next, now, owned);
      Inv(net, after) && Follows(a, after)
  {
    var after := Abandon(a, nonce, next, now, owned);
    AbandonWrites(net, a, nonce, next, now, owned);
    assert RowOk(net, a, nonce);
    hide Writes, RowAt, Sorted, Follows, IndexOf, WorkerOk;
    if after == a {
      FollowsItself(a);
    } else {
      var row := Row(a, nonce).value;
      var updated := row.(status := row.status.WithAbandonRequested(now));
      WritesFollows(net, a, after, nonce, Some(updated));
      WorkerStays(net, a, after, nonce, Some(updated));
    }
  }

  lemma FollowsItself(a: Account)
    ensures Follows(a, a)
  {
  }

  lemma SameRows(net: Network, a: Account, worker: map<Handle, Snapshot>)
    requires StoreOk(net, a)
    ensures StoreOk(net, a.(worker := worker)) && forall n: nat :: Row(a.(worker := worker), n) == Row(a, n)
  {
    hide RowAt, Sorted, Sound;
    forall n: nat
      ensures RowOk(net, a.(worker := worker), n)
    {
      assert RowOk(net, a, n);
    }
  }

  lemma TakesSnapshot(net: Network, a: Account, h: Handle, s: Snapshot)
    requires Inv(net, a) && Sound(net, s.delta)
    requires if h.OfArchive? then s.archived && s.delta in a.archive && IsParked(s.delta.status)
             else !s.archived && s.delta.nonce == h.nonce && SnapshotOk(Row(a, h.nonce), s)
    ensures Inv(net, a.(worker := a.worker[h := s]))
  {
    var next := a.(worker := a.worker[h := s]);
    SameRows(net, a, next.worker);
    hide Row, Sound, StoreOk;
    forall k | k in next.worker
      ensures HandleOk(net, next, k)
    {
      if k != h {
        assert HandleOk(net, a, k);
      }
    }
  }

  lemma ReadRowKeeps(net: Network, a: Account, nonce: nat)
    requires Inv(net, a) && (HasCandidate(Row(a, nonce)) || HasParked(Row(a, nonce)))
    ensures
      var next := Do(net, a, ReadRow(nonce));
      Inv(net, next) && Follows(a, next)
  {
    assert RowOk(net, a, nonce);
    var s := Snapshot(Row(a, nonce).value, false);
    SameRows(net, a, a.worker[OfRow(nonce) := s]);
    FollowsItself(a);
    hide RowAt, Sorted, Lifecycle, Sound, StoreOk, WorkerOk;
    TakesSnapshot(net, a, OfRow(nonce), s);
  }

  lemma ReadArchivedKeeps(net: Network, a: Account, index: nat, slot: nat)
    requires Inv(net, a) && index < |a.archive|
    ensures
      var next := Do(net, a, ReadArchived(index, slot));
      Inv(net, next) && Follows(a, next)
  {
    var s := Snapshot(a.archive[index], true);
    SameRows(net, a, a.worker[OfArchive(slot) := s]);
    FollowsItself(a);
    assert s.delta in a.archive;
    hide RowAt, Sorted, Lifecycle, WorkerOk, RowOk;
    TakesSnapshot(net, a, OfArchive(slot), s);
  }

  /** Pruning leaves exactly the rows that are kept. */
  lemma {:induction false} PrunedHolds(archive: seq<Delta>, kept: set<nat>)
    ensures forall d :: d in Pruned(archive, kept) <==> exists i: nat | i < |archive| && i in kept :: archive[i] == d
    decreases |archive|
  {
    if archive != [] {
      var n: nat := |archive| - 1;
      var before := archive[..n];
      PrunedHolds(before, kept);
      assert forall i: nat | i < n :: before[i] == archive[i];
      forall d
        ensures d in Pruned(archive, kept) <==> exists i: nat | i < |archive| && i in kept :: archive[i] == d
      {
        if i: nat :| i < |archive| && i in kept && archive[i] == d {
          assert i < n ==> before[i] == d;
        }
        if d in Pruned(before, kept) {
          var i: nat :| i < n && i in kept && before[i] == d;
          assert archive[i] == d;
        }
      }
    }
  }

  lemma PruneKeeps(net: Network, a: Account, kept: set<nat>)
    requires Inv(net, a) && Enabled(net, a, Prune(kept))
    ensures
      var next := Do(net, a, Prune(kept));
      Inv(net, next) && Follows(a, next)
  {
    var next := a.(archive := Pruned(a.archive, kept));
    PrunedHolds(a.archive, kept);
    hide Pruned, RowAt, Sorted, Sound, SnapshotOk;
    assert forall n: nat :: Row(next, n) == Row(a, n);
    forall n: nat
      ensures RowOk(net, next, n)
    {
      assert RowOk(net, a, n);
    }
    forall h | h in next.worker
      ensures HandleOk(net, next, h)
    {
      assert HandleOk(net, a, h);
    }
    FollowsItself(a);
    FollowsSame(a, a, next);
  }

  lemma EndPassKeeps(net: Network, a: Account)
    requires Inv(net, a)
    ensures
      var next := Do(net, a, EndPass);
      Inv(net, next) && Follows(a, next)
  {
    SameRows(net, a, map[]);
    FollowsItself(a);
    hide Row, RowOk, StoreOk, Lifecycle;
    FollowsSame(a, a, a.(worker := map[]));
  }

  /** A step that wrote `row` at the nonce of a row handle, and is done with it. */
  lemma DoneKeeps(net: Network, a: Account, after: Account, nonce: nat, row: Option<Delta>)
    requires Inv(net, a) && StoreOk(net, after) && Follows(a, after)
    requires after.worker == a.worker && after.archive == a.archive && !HasCanonical(Row(a, nonce))
    requires Row(after, nonce) == row && forall n: nat | n != nonce :: Row(after, n) == Row(a, n)
    ensures Inv(net, Done(after, OfRow(nonce))) && Follows(a, Done(after, OfRow(nonce)))
  {
    var next := Done(after, OfRow(nonce));
    SameRows(net, after, next.worker);
    hide Row, StoreOk, WorkerOk, Follows;
    WorkerStays(net, a, next, nonce, row);
    FollowsSame(a, after, next);
  }

  lemma NothingDoneKeeps(net: Network, a: Account, h: Handle)
    requires Inv(net, a)
    ensures Inv(net, Done(a, h)) && Follows(a, Done(a, h))
  {
    var next := Done(a, h);
    SameRows(net, a, next.worker);
    FollowsItself(a);
    hide Row, StoreOk, WorkerOk, Follows;
    WorkerStaysSame(net, a, next);
    FollowsSame(a, a, next);
  }

  lemma CounterWrites(net: Network, a: Account, nonce: nat, status: Status)
    requires Inv(net, a) && OnCandidate(a, nonce)
    requires status.Candidate? && status.RequestedAt() == Held(a, nonce).status.RequestedAt()
    ensures
      var row := Row(a, nonce);
      var after := UpdateStatus(a, nonce, status, false);
      && HasCandidate(row) && after.worker == a.worker && after.archive == a.archive
      && StoreOk(net, after) && Follows(a, after)
      && Row(after, nonce) == Some(Updated(row.value, status))
      && forall n: nat | n != nonce :: Row(after, n) == Row(a, n)
  {
    assert HandleOk(net, a, OfRow(nonce));
    assert RowOk(net, a, nonce);
    var row := RowAt(a.queue, nonce).value;
    UpdateWrites(net, a, nonce, status, false);
    CounterUpdates(row, Held(a, nonce), status);
    var after := UpdateStatus(a, nonce, status, false);
    hide Writes, RowAt, Sorted, Follows;
    WritesFollows(net, a, after, nonce, Some(Updated(row, status)));
  }

  lemma CounterKeeps(net: Network, a: Account, nonce: nat, op: Op)
    requires Inv(net, a) && OnCandidate(a, nonce) && !op.RequestAbandon?
    ensures
      var next := Do(net, a, WriteCounter(nonce, op));
      Inv(net, next) && Follows(a, next)
  {
    hide Row, StoreOk, Follows, UpdateStatus, Apply, WorkerOk, Sound;
    var status := Apply(Held(a, nonce).status, op);
    CounterIsCandidate(Held(a, nonce).status, op);
    CounterWrites(net, a, nonce, status);
    CounterWritten(net, a, UpdateStatus(a, nonce, status, false), nonce, status);
  }

  lemma CounterIsCandidate(status: Status, op: Op)
    requires status.Candidate? && !op.RequestAbandon?
    ensures Apply(status, op).Candidate? && Apply(status, op).RequestedAt() == status.RequestedAt()
  {
  }

  /** The row a counter was written to is read again into its snapshot. */
  lemma CounterWritten(net: Network, a: Account, after: Account, nonce: nat, status: Status)
    requires Inv(net, a) && OnCandidate(a, nonce) && HasCandidate(Row(a, nonce))
    requires status.Candidate? && status.RequestedAt() == Held(a, nonce).status.RequestedAt()
    requires StoreOk(net, after) && Follows(a, after) && after.worker == a.worker && after.archive == a.archive
    requires Row(after, nonce) == Some(Updated(Row(a, nonce).value, status))
    requires forall n: nat | n != nonce :: Row(after, n) == Row(a, n)
    ensures
      var next := after.(worker := a.worker[OfRow(nonce) := Snapshot(Held(a, nonce).(status := status), false)]);
      Inv(net, next) && Follows(a, next)
  {
    hide StoreOk, Follows, WorkerOk, Sound, Updated, RowAt;
    var d, row := Held(a, nonce), Row(a, nonce).value;
    var s := Snapshot(d.(status := status), false);
    WorkerHolds(net, a, OfRow(nonce));
    CounterUpdates(row, d, status);
    SoundIsAboutTheDelta(net, d, status);
    DoneKeeps(net, a, after, nonce, Some(Updated(row, status)));
    var cleared := Done(after, OfRow(nonce));
    SameRows(net, after, cleared.worker);
    TakesSnapshot(net, cleared, OfRow(nonce), s);
    assert cleared.worker[OfRow(nonce) := s] == a.worker[OfRow(nonce) := s];
    SameRows(net, after, a.worker[OfRow(nonce) := s]);
    FollowsSame(a, after, after.(worker := a.worker[OfRow(nonce) := s]));
  }

  lemma WorkerHolds(net: Network, a: Account, h: Handle)
    requires WorkerOk(net, a) && h in a.worker
    ensures HandleOk(net, a, h)
  {
  }

  lemma SoundIsAboutTheDelta(net: Network, d: Delta, status: Status)
    ensures Sound(net, d.(status := status)) <==> Sound(net, d)
  {
  }

  lemma FollowsSame(a: Account, next: Account, again: Account)
    requires Follows(a, next) && forall n: nat :: Row(again, n) == Row(next, n)
    ensures Follows(a, again)
  {
    hide Row, Lifecycle;
  }

  lemma CounterUpdates(row: Delta, d: Delta, status: Status)
    requires SnapshotOk(Some(row), Snapshot(d, false)) && d.status.Candidate?
    requires status.Candidate? && status.RequestedAt() == d.status.RequestedAt()
    ensures SnapshotOk(Some(Updated(row, status)), Snapshot(d.(status := status), false))
    ensures row.status.RequestedAt().Some? ==> Updated(row, status).status.RequestedAt() == row.status.RequestedAt()
  {
  }

  /** A final status, written over the candidate of the snapshot. */
  lemma SettleKeeps(net: Network, a: Account, nonce: nat, status: Status, owned: bool)
    requires Inv(net, a) && OnCandidate(a, nonce)
    requires status.Retained? || (status.IsClientAbandoned() && Held(a, nonce).status.RequestedAt().Some?)
    ensures
      var next := Done(UpdateStatus(a, nonce, status, owned), OfRow(nonce));
      Inv(net, next) && Follows(a, next)
  {
    assert HandleOk(net, a, OfRow(nonce));
    var row := Row(a, nonce).value;
    assert RowOk(net, a, nonce);
    var after := UpdateStatus(a, nonce, status, owned);
    UpdateWrites(net, a, nonce, status, owned);
    hide Writes, RowAt, RowOk, Sorted, Follows;
    if after == a {
      NothingDoneKeeps(net, a, OfRow(nonce));
    } else {
      WritesFollows(net, a, after, nonce, Some(Updated(row, status)));
      DoneKeeps(net, a, after, nonce, Some(Updated(row, status)));
    }
  }

  lemma DropKeeps(net: Network, a: Account, nonce: nat, owned: bool)
    requires Inv(net, a) && Enabled(net, a, Drop(nonce, owned))
    ensures
      var next := Do(net, a, Drop(nonce, owned));
      Inv(net, next) && Follows(a, next)
  {
    hide Writes, Row, RowOk, Sorted, Follows, Discard, WorkerOk;
    var retained := Held(a, nonce).status.Retained?;
    var after := Discard(a, nonce, retained, owned);
    DiscardWrites(net, a, nonce, retained, owned);
    DiscardKeepsTheRest(a, nonce, retained, owned);
    if after == a {
      NothingDoneKeeps(net, a, OfRow(nonce));
    } else {
      WritesFollows(net, a, after, nonce, None);
      DoneKeeps(net, a, after, nonce, None);
    }
  }

  lemma DiscardKeepsTheRest(a: Account, nonce: nat, retained: bool, owned: bool)
    ensures
      var after := Discard(a, nonce, retained, owned);
      after.worker == a.worker && after.archive == a.archive
  {
  }

  lemma {:induction false} RestoredKeeps(archive: seq<Delta>, d: Delta)
    ensures forall x :: x in Restored(archive, d) <==> x in archive && !SameRow(x, d)
    decreases |archive|
  {
    if archive != [] {
      var before, last := archive[..|archive| - 1], archive[|archive| - 1];
      assert archive == before + [last];
      RestoredKeeps(before, d);
    }
  }

  /** What a snapshot promotes is the row that was verified. */
  lemma PromotesTheVerifiedRow(net: Network, a: Account, h: Handle, now: string)
    requires Inv(net, a) && h in a.worker && StillThatKind(a, a.worker[h])
    ensures
      var d := a.worker[h].delta;
      && net.apply(d.base, d.payload).Some?
      && Sound(net, d.(status := Canonical(now)))
      && !HasCanonical(Row(a, d.nonce))
      && (h.OfArchive? ==> !HasCandidate(Row(a, d.nonce)))
      && Lifecycle(a.archive, Row(a, d.nonce), Some(d.(status := Canonical(now))))
  {
    var s := a.worker[h];
    assert HandleOk(net, a, h);
    assert RowOk(net, a, s.delta.nonce);
    hide Sorted, IndexOf;
    if s.archived {
      assert SameDelta(s.delta, s.delta.(status := Canonical(now)));
    }
  }

  lemma PromoteKeeps(net: Network, a: Account, h: Handle, now: string)
    requires Inv(net, a) && Enabled(net, a, PromoteRow(h, now))
    ensures
      var next := Do(net, a, PromoteRow(h, now));
      Inv(net, next) && Follows(a, next)
  {
    var s := a.worker[h];
    var target := net.apply(s.delta.base, s.delta.payload).value;
    var after := Promote(net, a, s, target, now);
    PromoteWrites(net, a, s, target, now);
    if after == a {
      NothingDoneKeeps(net, a, h);
    } else {
      PromotesTheVerifiedRow(net, a, h, now);
      PromoteArchives(net, a, s, target, now);
      WorkerHolds(net, a, h);
      var d := s.delta.(status := Canonical(now));
      assert d == s.delta.(next := Some(net.commit(target)), status := Canonical(now));
      hide Writes, Row, StoreOk, Sound, Follows, Promote, Lifecycle, StillThatKind, WorkerOk, SnapshotOk;
      WritesFollows(net, a, after, d.nonce, Some(d));
      PromotedKeeps(net, a, after, h, d);
    }
  }

  lemma PromotedKeeps(net: Network, a: Account, after: Account, h: Handle, d: Delta)
    requires Inv(net, a) && StoreOk(net, after) && Follows(a, after) && after.worker == a.worker && h in a.worker
    requires d.status.Canonical? && d.nonce == a.worker[h].delta.nonce && !HasCanonical(Row(a, d.nonce))
    requires h.OfArchive? ==> !HasCandidate(Row(a, d.nonce))
    requires Row(after, d.nonce) == Some(d) && forall n: nat | n != d.nonce :: Row(after, n) == Row(a, n)
    requires forall x | x in a.archive :: x in after.archive || x.nonce == d.nonce
    ensures Inv(net, Done(after, h)) && Follows(a, Done(after, h))
  {
    var next := Done(after, h);
    SameRows(net, after, next.worker);
    WorkerHolds(net, a, h);
    if OfRow(d.nonce) in next.worker {
      WorkerHolds(net, a, OfRow(d.nonce));
    }
    hide Row, StoreOk, WorkerOk, Follows, Sound;
    WorkerStays(net, a, next, d.nonce, Some(d));
    FollowsSame(a, after, next);
  }

  lemma PromoteArchives(net: Network, a: Account, s: Snapshot, target: AccountState, now: string)
    requires StoreOk(net, a) && StillThatKind(a, s)
    ensures forall d | d in Promote(net, a, s, target, now).archive :: Sound(net, d) && IsParked(d.status)
    ensures forall d | d in a.archive :: d in Promote(net, a, s, target, now).archive || d.nonce == s.delta.nonce
    ensures Promote(net, a, s, target, now).worker == a.worker
  {
    var d := s.delta.(next := Some(net.commit(target)), status := Canonical(now));
    assert RowOk(net, a, d.nonce);
    hide RowAt, Sorted, Restored;
    RestoredKeeps(a.archive, d);
  }

  lemma StepKeeps(net: Network, a: Account, e: Event)
    requires Inv(net, a) && Enabled(net, a, e)
    ensures Inv(net, Do(net, a, e)) && Follows(a, Do(net, a, e))
  {
    hide StoreOk, WorkerOk, Follows, Sound, Submit, Abandon, UpdateStatus, Discard, Promote, Row;
    match e
    case SubmitDelta(delta, maxPending, archives, open) =>
      SubmitStepKeeps(net, a, delta, maxPending, archives, open);
    case RequestAbandon(nonce, next, now, owned) => AbandonKeeps(net, a, nonce, next, now, owned);
    case ReadRow(nonce) => ReadRowKeeps(net, a, nonce);
    case ReadArchived(index, slot) => ReadArchivedKeeps(net, a, index, slot);
    case Prune(kept) => PruneKeeps(net, a, kept);
    case EndPass => EndPassKeeps(net, a);
    case WriteCounter(nonce, op) => CounterKeeps(net, a, nonce, op);
    case Park(nonce, reason, now, owned) => SettleKeeps(net, a, nonce, Retained(now, Some(reason)), owned);
    case FinishAbandon(nonce, now, owned) => SettleKeeps(net, a, nonce, Discarded(now, Some(ClientAbandoned)), owned);
    case Drop(nonce, owned) => DropKeeps(net, a, nonce, owned);
    case PromoteRow(h, now) => PromoteKeeps(net, a, h, now);
  }

  lemma SubmitStepKeeps(net: Network, a: Account, delta: Delta, maxPending: nat, archives: bool, open: bool)
    requires Inv(net, a) && Sound(net, delta) && delta.status.Candidate?
    ensures
      var next := Submit(net, a, delta, maxPending, archives, open).0;
      Inv(net, next) && Follows(a, next)
  {
    hide StoreOk, WorkerOk, Follows, Sound, Chained, Classify;
    if Submit(net, a, delta, maxPending, archives, open).1 == Submitted {
      SubmitKeeps(net, a, delta, maxPending, archives, open);
    } else {
      FollowsItself(a);
    }
  }

  // ----- whole runs -----

  /** A run: `ws[i + 1]` is what event `i` makes of `ws[i]`. */
  ghost predicate Run(net: Network, ws: seq<Account>, es: seq<Event>) {
    && |ws| == |es| + 1
    && forall i | 0 <= i < |es| :: Steps(net, ws, es, i)
  }

  ghost predicate Steps(net: Network, ws: seq<Account>, es: seq<Event>, i: nat)
    requires i < |es| && |ws| == |es| + 1
  {
    Enabled(net, ws[i], es[i]) && ws[i + 1] == Do(net, ws[i], es[i])
  }

  /** An account as onboarding leaves it. */
  predicate Initial(a: Account) {
    a.queue == [] && a.settled == map[] && a.archive == [] && a.path == [] && a.worker == map[]
  }

  lemma {:induction false} RunKeeps(net: Network, ws: seq<Account>, es: seq<Event>, i: nat)
    requires Run(net, ws, es) && Initial(ws[0]) && i < |ws|
    ensures Inv(net, ws[i])
  {
    hide Do, Enabled, StoreOk, WorkerOk, Follows;
    if i == 0 {
      InitialOk(net, ws[0]);
    } else {
      RunKeeps(net, ws, es, i - 1);
      assert Steps(net, ws, es, i - 1);
      StepKeeps(net, ws[i - 1], es[i - 1]);
    }
  }

  lemma InitialOk(net: Network, a: Account)
    requires Initial(a)
    ensures Inv(net, a)
  {
  }

  /** Every step of every run takes every row along the lifecycle. */
  lemma EveryRowFollowsTheLifecycle(net: Network, ws: seq<Account>, es: seq<Event>, i: nat, nonce: nat)
    requires Run(net, ws, es) && Initial(ws[0]) && i < |es|
    ensures Lifecycle(ws[i].archive, Row(ws[i], nonce), Row(ws[i + 1], nonce))
  {
    hide Do, Enabled, StoreOk, WorkerOk, Lifecycle, Row;
    RunKeeps(net, ws, es, i);
    assert Steps(net, ws, es, i);
    StepKeeps(net, ws[i], es[i]);
  }

  /** A canonical row is never touched again. */
  lemma {:induction false} CanonicalForever(net: Network, ws: seq<Account>, es: seq<Event>, i: nat, j: nat, nonce: nat)
    requires Run(net, ws, es) && Initial(ws[0]) && i <= j < |ws|
    requires Row(ws[i], nonce).Some? && Row(ws[i], nonce).value.status.Canonical?
    ensures Row(ws[j], nonce) == Row(ws[i], nonce)
    decreases j
  {
    hide Steps, Row;
    if i < j {
      CanonicalForever(net, ws, es, i, j - 1, nonce);
      EveryRowFollowsTheLifecycle(net, ws, es, j - 1, nonce);
    }
  }

  predicate StaysCandidate(before: Option<Delta>, after: Option<Delta>) {
    && HasCandidate(before) && HasCandidate(after) && SameDelta(before.value, after.value)
    && (before.value.status.RequestedAt().Some? ==>
          after.value.status.RequestedAt() == before.value.status.RequestedAt())
  }

  /** While a row stays a candidate it stays the same delta, and its first abandon
      request stays as it was recorded. */
  lemma {:induction false} RequestIsKept(net: Network, ws: seq<Account>, es: seq<Event>, i: nat, j: nat, nonce: nat)
    requires Run(net, ws, es) && Initial(ws[0]) && i <= j < |ws|
    requires forall k: nat | i <= k <= j :: HasCandidate(Row(ws[k], nonce))
    ensures StaysCandidate(Row(ws[i], nonce), Row(ws[j], nonce))
    decreases j
  {
    hide Steps, Row;
    if i < j {
      RequestIsKept(net, ws, es, i, j - 1, nonce);
      EveryRowFollowsTheLifecycle(net, ws, es, j - 1, nonce);
    }
  }

  // ----- each lock section takes effect -----

  /** A request on a candidate the caller names is recorded, or already was. It changes
      nothing else, neither in that row nor in any other. */
  lemma RequestTakesEffect(net: Network, a: Account, nonce: nat, next: Commitment, now: string, owned: bool)
    requires Inv(net, a)
    ensures
      var before := Row(a, nonce);
      var after := Abandon(a, nonce, next, now, owned);
      && (owned || !HasCandidate(before) || before.value.next != Some(next) ==> after == a)
      && (HasCandidate(before) && !owned && before.value.next == Some(next) ==>
            && HasCandidate(Row(after, nonce))
            && var row := Row(after, nonce).value;
            && row.status.RequestedAt() ==
               (if before.value.status.RequestedAt().Some? then before.value.status.RequestedAt() else Some(now))
            && row.(status := row.status.(abandonRequestedAt := before.value.status.abandonRequestedAt)) == before.value)
      && (forall n: nat | n != nonce :: Row(after, n) == Row(a, n))
      && after.(queue := a.queue) == a
  {
    var at := IndexOf(a.queue, nonce);
    assert RowOk(net, a, nonce);
    hide Sorted, Sound;
    if at.Some? {
      var row := a.queue[at.value];
      var updated := row.(status := row.status.WithAbandonRequested(now));
      RowAtReplaced(a.queue, at.value, updated, nonce);
      forall n: nat {
        RowAtReplaced(a.queue, at.value, updated, n);
      }
    }
  }

  /** A submission that is admitted is the candidate at its nonce, and one that is
      not changes nothing. */
  lemma SubmissionTakesEffect(net: Network, a: Account, delta: Delta, maxPending: nat, archives: bool, open: bool)
    requires Inv(net, a) && Sound(net, delta) && delta.status.Candidate?
    ensures
      var (after, outcome) := Submit(net, a, delta, maxPending, archives, open);
      && (outcome == Submitted ==>
            && Row(after, delta.nonce) == Some(delta) && after.queue == a.queue + [delta]
            && after.archive == a.archive + if archives && Row(a, delta.nonce).Some? then [Row(a, delta.nonce).value] else [])
      && (outcome != Submitted ==> after == a)
      && (outcome == Submitted <==> open && Gate(net.commit(a.state), a.queue, delta, maxPending).None? &&
                                    (Row(a, delta.nonce).None? || HasParked(Row(a, delta.nonce))))
  {
    hide Sound, Chained, Classify;
    assert RowOk(net, a, delta.nonce);
    if Gate(net.commit(a.state), a.queue, delta, maxPending).None? {
      RowAtAppended(a.queue, delta, delta.nonce);
    }
  }

  /** A final status lands unless an execution owns the row or the request came first. */
  lemma SettlingTakesEffect(net: Network, a: Account, nonce: nat, status: Status, owned: bool)
    requires Inv(net, a) && OnCandidate(a, nonce) && !status.Candidate?
    ensures
      var before := Row(a, nonce);
      var after := UpdateStatus(a, nonce, status, owned);
      && HasCandidate(before)
      && (if owned || (status.Retained? && before.value.status.RequestedAt().Some?) then after == a
          else Row(after, nonce) == Some(before.value.(status := status)))
  {
    var at := IndexOf(a.queue, nonce);
    assert RowOk(net, a, nonce);
    WorkerHolds(net, a, OfRow(nonce));
    hide Sorted, Sound;
    RowAtWithout(a.queue, at.value, nonce);
  }

  /** A counter write lands on the row, with the status computed from the snapshot
      and the request the row carries. */
  lemma CounterTakesEffect(net: Network, a: Account, nonce: nat, op: Op)
    requires Inv(net, a) && OnCandidate(a, nonce) && !op.RequestAbandon?
    ensures
      var before := Row(a, nonce);
      && HasCandidate(before)
      && Row(Do(net, a, WriteCounter(nonce, op)), nonce) ==
         Some(before.value.(status := Apply(Held(a, nonce).status, op).WithAbandonRequestPreservedFrom(before.value.status.RequestedAt())))
  {
    hide Row, StoreOk, Follows, UpdateStatus, Apply, WorkerOk, Sound;
    var d := Held(a, nonce);
    var status := Apply(d.status, op);
    CounterIsCandidate(d.status, op);
    CounterWrites(net, a, nonce, status);
    SameRows(net, UpdateStatus(a, nonce, status, false), a.worker[OfRow(nonce) := Snapshot(d.(status := status), false)]);
  }

  /** A dropped candidate is gone unless an execution owns it, an expired retained
      row unless it is retained no more. */
  lemma DropTakesEffect(net: Network, a: Account, nonce: nat, owned: bool)
    requires Inv(net, a) && Enabled(net, a, Drop(nonce, owned))
    ensures
      var retained := Held(a, nonce).status.Retained?;
      var before := Row(a, nonce);
      var after := Discard(a, nonce, retained, owned);
      if retained then
        if before.Some? && before.value.status.Retained? then Row(after, nonce).None? else after == a
      else
        if owned then after == a else Row(after, nonce).None? && before.Some?
  {
    var at := IndexOf(a.queue, nonce);
    assert RowOk(net, a, nonce);
    WorkerHolds(net, a, OfRow(nonce));
    hide Sorted, Sound;
    if at.Some? {
      RowAtWithout(a.queue, at.value, nonce);
    }
  }

  /** Whether the account is where a snapshot's promotion starts or, for a row that
      is not archived, where an interrupted one left it. */
  predicate Promotable(net: Network, a: Account, s: Snapshot) {
    && StillThatKind(a, s)
    && (net.commit(a.state) == s.delta.prev || (!s.archived && Some(net.commit(a.state)) == s.delta.next))
  }

  /** A promotion succeeds exactly then; it makes the row canonical and the state
      what the delta commits to, and otherwise changes nothing. */
  lemma PromotesExactlyWhen(net: Network, a: Account, h: Handle, now: string)
    requires Inv(net, a) && Enabled(net, a, PromoteRow(h, now))
    ensures
      var s := a.worker[h];
      var next := Do(net, a, PromoteRow(h, now));
      if Promotable(net, a, s) then
        && Row(next, s.delta.nonce) == Some(s.delta.(status := Canonical(now)))
        && Some(net.commit(next.state)) == s.delta.next
        && (!s.archived ==> next.archive == a.archive)
        && (s.archived ==> forall x ::
              x in next.archive <==> (x in a.archive && !SameRow(x, s.delta)) || Some(x) == Row(a, s.delta.nonce))
      else
        next == Done(a, h)
  {
    hide Promote, Promotable, Row, StoreOk, WorkerOk, SameRow;
    var s := a.worker[h];
    WorkerHolds(net, a, h);
    var target := net.apply(s.delta.base, s.delta.payload).value;
    var after := Promote(net, a, s, target, now);
    if Promotable(net, a, s) {
      PromotedRow(net, a, h, target, now);
      PromotedArchive(net, a, h, target, now);
      SameRows(net, after, after.worker - {h});
    } else {
      PromotionRefused(net, a, s, target, now);
    }
  }

  lemma PromotionRefused(net: Network, a: Account, s: Snapshot, target: AccountState, now: string)
    requires Sound(net, s.delta) && net.apply(s.delta.base, s.delta.payload) == Some(target) && !Promotable(net, a, s)
    ensures Promote(net, a, s, target, now) == a
  {
    hide Restored, StillThatKind, IndexOf;
  }

  lemma PromotedArchive(net: Network, a: Account, h: Handle, target: AccountState, now: string)
    requires Inv(net, a) && h in a.worker && Promotable(net, a, a.worker[h])
    requires net.apply(a.worker[h].delta.base, a.worker[h].delta.payload) == Some(target)
    ensures
      var s := a.worker[h];
      var after := Promote(net, a, s, target, now);
      && (!s.archived ==> after.archive == a.archive)
      && (s.archived ==> forall x ::
            x in after.archive <==> (x in a.archive && !SameRow(x, s.delta)) || Some(x) == Row(a, s.delta.nonce))
  {
    var s := a.worker[h];
    WorkerHolds(net, a, h);
    var d := s.delta.(next := Some(net.commit(target)), status := Canonical(now));
    assert RowOk(net, a, d.nonce);
    RestoredKeeps(a.archive, d);
    hide Restored, Sorted;
  }

  lemma PromotedRow(net: Network, a: Account, h: Handle, target: AccountState, now: string)
    requires Inv(net, a) && h in a.worker && Promotable(net, a, a.worker[h])
    requires net.apply(a.worker[h].delta.base, a.worker[h].delta.payload) == Some(target)
    ensures
      var s := a.worker[h];
      var after := Promote(net, a, s, target, now);
      && StoreOk(net, after)
      && Row(after, s.delta.nonce) == Some(s.delta.(status := Canonical(now)))
      && after.state == target && after.worker == a.worker
  {
    var s := a.worker[h];
    WorkerHolds(net, a, h);
    var after := Promote(net, a, s, target, now);
    var d := s.delta.(status := Canonical(now));
    assert d == s.delta.(next := Some(net.commit(target)), status := Canonical(now));
    RestoredKeeps(a.archive, d);
    PromoteWrites(net, a, s, target, now);
    PromotesTheVerifiedRow(net, a, h, now);
    PromoteArchives(net, a, s, target, now);
    assert after.settled == a.settled[d.nonce := d];
    hide Writes, RowAt, RowOk, Sorted, Follows, Lifecycle, StillThatKind, Restored, WorkerOk;
    if after == a {
      AlreadyThere(net, a, d);
    } else {
      WritesFollows(net, a, after, d.nonce, Some(d));
    }
  }

  lemma AlreadyThere(net: Network, a: Account, d: Delta)
    requires StoreOk(net, a) && a.settled == a.settled[d.nonce := d]
    ensures Row(a, d.nonce) == Some(d)
  {
    assert RowOk(net, a, d.nonce);
    assert a.settled[d.nonce := d][d.nonce] == d;
  }
}
