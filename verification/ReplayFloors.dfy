/**
The server's replay protection (crates/server/src/services/mod.rs,
metadata/filesystem.rs, session.rs): a request's timestamp must lie in the skew
window around the server clock and above the floor kept for its account and
signer, which it then becomes. A sweep deletes floors of session keys once they
are old. The main theorem says that deleting floors never lets a request back
in, and how stale a clock reading may be for that to hold.
*/
module ReplayFloors {
  import opened Wrappers
  import opened Timestamps

  const MAX_TIMESTAMP_SKEW_MS: int := 300_000

  datatype Signer = WalletSigner(commitment: string) | SessionSigner(key: nat)

  /** Floors are kept per account and signer; a migrated account also has one
      floor for all its signers. */
  datatype FloorKey = Of(account: string, signer: Signer) | LegacyOf(account: string)

  // ----- the skew window, in wrapping 64-bit arithmetic -----

  const I64_COUNT: int := 0x1_0000_0000_0000_0000

  function WrapI64(x: int): I64 {
    (x - I64_MIN) % I64_COUNT + I64_MIN
  }

  /** `abs()` of an `i64`, which leaves `i64::MIN` as it is. */
  function WrapAbs(x: I64): I64 {
    if x == I64_MIN || x >= 0 then x else -x
  }

  /** `validate_request_timestamp`. */
  predicate InWindow(now: I64, timestamp: I64) {
    WrapAbs(WrapI64(now - timestamp)) <= MAX_TIMESTAMP_SKEW_MS
  }

  /** The difference of clock and timestamp fits in an `i64`. */
  predicate Representable(now: I64, timestamp: I64) {
    I64_MIN < now - timestamp <= I64_MAX
  }

  /** The check is the skew window exactly for representable differences. Of the
      others it passes those that wrap into the window, and the two that wrap to
      `i64::MIN`, which has no absolute value. */
  lemma WindowIsExact(now: I64, timestamp: I64)
    ensures InWindow(now, timestamp) <==>
      var d := now - timestamp;
      || -MAX_TIMESTAMP_SKEW_MS <= d <= MAX_TIMESTAMP_SKEW_MS
      || -MAX_TIMESTAMP_SKEW_MS <= d - I64_COUNT <= MAX_TIMESTAMP_SKEW_MS
      || -MAX_TIMESTAMP_SKEW_MS <= d + I64_COUNT <= MAX_TIMESTAMP_SKEW_MS
      || d == I64_MIN || d == -I64_MIN
    ensures Representable(now, timestamp) ==>
      (InWindow(now, timestamp) <==> -MAX_TIMESTAMP_SKEW_MS <= now - timestamp <= MAX_TIMESTAMP_SKEW_MS)
  {
    var d := now - timestamp;
    if d > I64_MAX {
      WrapsBy(d, d - I64_COUNT);
    } else if d < I64_MIN {
      WrapsBy(d, d + I64_COUNT);
    } else {
      WrapsBy(d, d);
    }
  }

  lemma WrapsBy(x: int, y: I64)
    requires y == x || y == x - I64_COUNT || y == x + I64_COUNT
    ensures WrapI64(x) == y
  {
    var n := y - I64_MIN;
    assert 0 <= n < I64_COUNT;
    assert (x - I64_MIN) % I64_COUNT == n;
  }

  // ----- the floors -----

  type Floors = map<FloorKey, I64>

  predicate AboveFloors(floors: Floors, account: string, signer: Signer, timestamp: I64) {
    && (Of(account, signer) in floors ==> floors[Of(account, signer)] < timestamp)
    && (LegacyOf(account) in floors ==> floors[LegacyOf(account)] < timestamp)
  }

  /** The floors `purge_session_floors` keeps. */
  predicate Kept(key: FloorKey, floor: I64, before: int) {
    (key.Of? && key.signer.SessionSigner?) ==> before <= floor
  }

  function Purged(floors: Floors, before: int): Floors {
    map key | key in floors && Kept(key, floors[key], before) :: floors[key]
  }

  /** `stale_floor_cutoff_ms`. */
  function Cutoff(now: I64, maxTtlMs: nat): int {
    now - (maxTtlMs + 2 * MAX_TIMESTAMP_SKEW_MS)
  }

  datatype StoreError = UnknownAccount | NotPersisted

  /** The replay state of `FilesystemMetadataStore`. `persisted` says whether
      writing the state file succeeds; when it fails the change is rolled back. */
  class AuthState {
    const accounts: set<string>
    var floors: Floors

    constructor (accounts: set<string>, floors: Floors)
      ensures this.accounts == accounts && this.floors == floors
    {
      this.accounts := accounts;
      this.floors := floors;
    }

    /** `update_last_auth_timestamp_cas`. */
    method UpdateLastAuthTimestampCas(account: string, signer: Signer, timestamp: I64, persisted: bool)
        returns (r: Result<bool, StoreError>)
      modifies this`floors
      ensures r == Err(UnknownAccount) <==> account !in accounts
      ensures r == Ok(false) <==> account in accounts && !AboveFloors(old(floors), account, signer, timestamp)
      ensures r == Ok(true) <==> account in accounts && AboveFloors(old(floors), account, signer, timestamp) && persisted
      ensures floors == if r == Ok(true) then old(floors)[Of(account, signer) := timestamp] else old(floors)
    {
      if account !in accounts {
        return Err(UnknownAccount);
      }
      var key := Of(account, signer);
      var legacyKey := LegacyOf(account);
      var floor: Option<I64> := if key in floors then Some(floors[key]) else None;
      if legacyKey in floors && (floor.None? || floor.value < floors[legacyKey]) {
        floor := Some(floors[legacyKey]);
      }
      if floor.Some? && timestamp <= floor.value {
        return Ok(false);
      }
      var previous := if key in floors then Some(floors[key]) else None;
      floors := floors[key := timestamp];
      if !persisted {
        match previous {
          case Some(prior) => floors := floors[key := prior];
          case None => floors := floors - {key};
        }
        assert floors == old(floors);
        return Err(NotPersisted);
      }
      return Ok(true);
    }

    /** `purge_session_floors`. */
    method PurgeSessionFloors(before: int, persisted: bool) returns (r: Result<nat, StoreError>)
      modifies this`floors
      ensures floors == if persisted then Purged(old(floors), before) else old(floors)
      ensures r.Ok? ==> r.value == |old(floors)| - |floors|
      ensures r.Err? <==> !persisted && Purged(old(floors), before) != old(floors)
      ensures r.Err? ==> r.error == NotPersisted
    {
      hide Kept;
      var stale := set key | key in floors && !Kept(key, floors[key], before);
      var kept := floors - stale;
      assert kept == Purged(floors, before);
      assert floors.Keys == kept.Keys + stale && kept.Keys !! stale;
      if stale == {} {
        assert kept == floors;
        return Ok(0);
      }
      if !persisted {
        assert kept.Keys != floors.Keys;
        return Err(NotPersisted);
      }
      floors := kept;
      return Ok(|stale|);
    }
  }

  // ----- runs -----

  datatype Accepted = Accepted(key: FloorKey, timestamp: I64)

  /** `swept` is the greatest clock reading a sweep was decided on so far. */
  datatype Server = Server(floors: Floors, swept: int, accepted: seq<Accepted>)

  /** Every event carries the clock reading it was decided on. */
  datatype Event =
    | Request(account: string, signer: Signer, timestamp: I64, now: I64, persisted: bool)
    | Purge(now: I64, persisted: bool)

  function Do(s: Server, e: Event, maxTtlMs: nat): Server {
    match e
    case Request(account, signer, timestamp, now, persisted) =>
      if InWindow(now, timestamp) && AboveFloors(s.floors, account, signer, timestamp) && persisted then
        var key := Of(account, signer);
        Server(s.floors[key := timestamp], s.swept, s.accepted + [Accepted(key, timestamp)])
      else
        s
    case Purge(now, persisted) =>
      if persisted then
        Server(Purged(s.floors, Cutoff(now, maxTtlMs)), if s.swept < now then now else s.swept, s.accepted)
      else
        s
  }

  function After(s: Server, es: seq<Event>, maxTtlMs: nat): Server
    decreases |es|
  {
    if es == [] then s else Do(After(s, es[..|es| - 1], maxTtlMs), es[|es| - 1], maxTtlMs)
  }

  function Start(floors: Floors): Server {
    Server(floors, I64_MIN, [])
  }

  /** The accepted timestamps of this account and signer grow strictly. */
  ghost predicate Growing(accepted: seq<Accepted>, key: FloorKey) {
    forall j, k | 0 <= j < k < |accepted| && accepted[j].key == accepted[k].key == key ::
      accepted[j].timestamp < accepted[k].timestamp
  }

  predicate IsRequestOf(e: Event, key: FloorKey) {
    e.Request? && Of(e.account, e.signer) == key
  }

  /** A request of a session is timely when it is decided on a reading at most `lag`
      below that of any earlier sweep, and its difference to that reading fits. */
  predicate TimelyRequest(swept: int, e: Event, lag: nat) {
    e.Request? ==> swept - lag <= e.now && Representable(e.now, e.timestamp)
  }

  /** All requests of this key are timely. Nothing is asked of any other event. */
  ghost predicate Timely(s: Server, es: seq<Event>, maxTtlMs: nat, key: FloorKey, lag: nat) {
    forall i | 0 <= i < |es| && IsRequestOf(es[i], key) :: TimelyRequest(After(s, es[..i], maxTtlMs).swept, es[i], lag)
  }

  predicate IsSessionKey(key: FloorKey) {
    key.Of? && key.signer.SessionSigner?
  }

  /** An accepted timestamp is at or below its floor or, for a session, so old that
      no timely request can bring it back. */
  ghost predicate Covered(s: Server, a: Accepted, maxTtlMs: nat) {
    || (a.key in s.floors && a.timestamp <= s.floors[a.key])
    || (IsSessionKey(a.key) && a.timestamp < s.swept - (maxTtlMs + 2 * MAX_TIMESTAMP_SKEW_MS))
  }

  ghost predicate Inv(s: Server, maxTtlMs: nat, key: FloorKey) {
    && Growing(s.accepted, key)
    && forall k | 0 <= k < |s.accepted| && s.accepted[k].key == key :: Covered(s, s.accepted[k], maxTtlMs)
  }

  lemma StepKeepsInv(s: Server, e: Event, maxTtlMs: nat, key: FloorKey)
    requires Inv(s, maxTtlMs, key)
    requires IsSessionKey(key) && IsRequestOf(e, key) ==> TimelyRequest(s.swept, e, maxTtlMs + MAX_TIMESTAMP_SKEW_MS)
    ensures Inv(Do(s, e, maxTtlMs), maxTtlMs, key)
  {
    hide InWindow, Representable;
    var v := Do(s, e, maxTtlMs);
    if IsRequestOf(e, key) {
      WindowIsExact(e.now, e.timestamp);
      forall k | 0 <= k < |s.accepted| && s.accepted[k].key == key && |v.accepted| > |s.accepted|
        ensures s.accepted[k].timestamp < e.timestamp
      {
        assert Covered(s, s.accepted[k], maxTtlMs);
      }
    }
    forall k | 0 <= k < |v.accepted| && v.accepted[k].key == key
      ensures Covered(v, v.accepted[k], maxTtlMs)
    {
      assert k < |s.accepted| ==> v.accepted[k] == s.accepted[k] && Covered(s, s.accepted[k], maxTtlMs);
    }
  }

  lemma {:induction false} RunKeepsInv(floors: Floors, es: seq<Event>, maxTtlMs: nat, key: FloorKey)
    requires IsSessionKey(key) ==> Timely(Start(floors), es, maxTtlMs, key, maxTtlMs + MAX_TIMESTAMP_SKEW_MS)
    ensures Inv(After(Start(floors), es, maxTtlMs), maxTtlMs, key)
    decreases |es|
  {
    if es != [] {
      var n := |es| - 1;
      forall i | 0 <= i < n ensures es[..n][..i] == es[..i] && es[..n][i] == es[i] {
      }
      RunKeepsInv(floors, es[..n], maxTtlMs, key);
      StepKeepsInv(After(Start(floors), es[..n], maxTtlMs), es[n], maxTtlMs, key);
    }
  }

  /** A wallet's requests are never accepted twice: in every run, whatever the clocks
      read and whatever is swept, its accepted timestamps strictly grow. */
  lemma NoWalletRequestIsAcceptedTwice(floors: Floors, es: seq<Event>, maxTtlMs: nat, account: string, commitment: string)
    ensures Growing(After(Start(floors), es, maxTtlMs).accepted, Of(account, WalletSigner(commitment)))
  {
    RunKeepsInv(floors, es, maxTtlMs, Of(account, WalletSigner(commitment)));
  }

  /** Nor are a session's, although its floor may be swept, in every run in which its
      own requests are timely; the other events are arbitrary. */
  lemma NoSessionRequestIsAcceptedTwice(floors: Floors, es: seq<Event>, maxTtlMs: nat, account: string, key: nat)
    requires Timely(Start(floors), es, maxTtlMs, Of(account, SessionSigner(key)), maxTtlMs + MAX_TIMESTAMP_SKEW_MS)
    ensures Growing(After(Start(floors), es, maxTtlMs).accepted, Of(account, SessionSigner(key)))
  {
    RunKeepsInv(floors, es, maxTtlMs, Of(account, SessionSigner(key)));
  }

  /** The lag is tight: one millisecond more and a sweep lets a request back in, for
      every session lifetime and every timestamp. */
  lemma LongerLagAcceptsTwice(account: string, key: nat, timestamp: I64, maxTtlMs: nat)
    requires 0 <= timestamp
    requires timestamp + maxTtlMs + 2 * MAX_TIMESTAMP_SKEW_MS + 1 <= I64_MAX
    ensures
      var r := SessionSigner(key);
      var purgeAt := timestamp + maxTtlMs + 2 * MAX_TIMESTAMP_SKEW_MS + 1;
      var es := [Request(account, r, timestamp, timestamp, true), Purge(purgeAt, true),
                 Request(account, r, timestamp, timestamp + MAX_TIMESTAMP_SKEW_MS, true)];
      && Timely(Start(map[]), es, maxTtlMs, Of(account, r), maxTtlMs + MAX_TIMESTAMP_SKEW_MS + 1)
      && After(Start(map[]), es, maxTtlMs).accepted ==
         [Accepted(Of(account, r), timestamp), Accepted(Of(account, r), timestamp)]
  {
    var r := SessionSigner(key);
    var purgeAt := timestamp + maxTtlMs + 2 * MAX_TIMESTAMP_SKEW_MS + 1;
    var es := [Request(account, r, timestamp, timestamp, true), Purge(purgeAt, true),
               Request(account, r, timestamp, timestamp + MAX_TIMESTAMP_SKEW_MS, true)];
    WindowIsExact(timestamp, timestamp);
    WindowIsExact(es[2].now, timestamp);
    SweptAndBack(account, r, timestamp, es[0].now, purgeAt, es[2].now, maxTtlMs);
    hide InWindow, Do, After;
  }

  /** And so is the other half: a timestamp exactly 2^63 behind the clock wraps through
      the skew check, and a sweep lets it back in without any lag, for every clock
      reading from which the cutoff lies after it. */
  lemma WrappedTimestampIsAcceptedTwice(account: string, key: nat, now: I64, maxTtlMs: nat)
    requires 0 <= now && I64_MIN + maxTtlMs + 2 * MAX_TIMESTAMP_SKEW_MS < 0
    ensures
      var r := SessionSigner(key);
      var timestamp: I64 := now + I64_MIN;
      var es := [Request(account, r, timestamp, now, true), Purge(now, true), Request(account, r, timestamp, now, true)];
      && !Representable(now, timestamp)
      && After(Start(map[]), es, maxTtlMs).accepted ==
         [Accepted(Of(account, r), timestamp), Accepted(Of(account, r), timestamp)]
  {
    var timestamp: I64 := now + I64_MIN;
    WindowIsExact(now, timestamp);
    SweptAndBack(account, SessionSigner(key), timestamp, now, now, now, maxTtlMs);
  }

  /** A request, a sweep past it, and the same request again. */
  lemma SweptAndBack(account: string, r: Signer, timestamp: I64, first: I64, purgeAt: I64, again: I64, maxTtlMs: nat)
    requires r.SessionSigner? && InWindow(first, timestamp) && InWindow(again, timestamp)
    requires timestamp < Cutoff(purgeAt, maxTtlMs)
    ensures
      var es := [Request(account, r, timestamp, first, true), Purge(purgeAt, true), Request(account, r, timestamp, again, true)];
      && After(Start(map[]), es[..0], maxTtlMs).swept == I64_MIN
      && After(Start(map[]), es[..2], maxTtlMs).swept == purgeAt
      && After(Start(map[]), es, maxTtlMs).accepted ==
         [Accepted(Of(account, r), timestamp), Accepted(Of(account, r), timestamp)]
  {
    hide InWindow;
    var es := [Request(account, r, timestamp, first, true), Purge(purgeAt, true), Request(account, r, timestamp, again, true)];
    var s0 := Start(map[]);
    var s1 := Server(map[Of(account, r) := timestamp], I64_MIN, [Accepted(Of(account, r), timestamp)]);
    var s2 := Server(map[], purgeAt, s1.accepted);
    assert Do(s0, es[0], maxTtlMs) == s1;
    assert Do(s1, es[1], maxTtlMs).floors == map[];
    assert Do(s1, es[1], maxTtlMs) == s2;
    ThreeEvents(s0, es[0], es[1], es[2], maxTtlMs);
  }

  lemma ThreeEvents(s: Server, e0: Event, e1: Event, e2: Event, maxTtlMs: nat)
    ensures
      var es := [e0, e1, e2];
      var s1 := Do(s, e0, maxTtlMs);
      var s2 := Do(s1, e1, maxTtlMs);
      && After(s, es[..0], maxTtlMs) == s
      && After(s, es[..1], maxTtlMs) == s1
      && After(s, es[..2], maxTtlMs) == s2
      && After(s, es, maxTtlMs) == Do(s2, e2, maxTtlMs)
  {
    hide Do;
    var es := [e0, e1, e2];
    AfterSnoc(s, [], e0, maxTtlMs);
    AfterSnoc(s, [e0], e1, maxTtlMs);
    AfterSnoc(s, [e0, e1], e2, maxTtlMs);
    assert es[..0] == [] && es[..1] == [] + [e0] && es[..2] == [e0] + [e1] && es == [e0, e1] + [e2];
  }

  lemma AfterSnoc(s: Server, es: seq<Event>, e: Event, maxTtlMs: nat)
    ensures After(s, es + [e], maxTtlMs) == Do(After(s, es, maxTtlMs), e, maxTtlMs)
  {
    assert (es + [e])[..|es|] == es;
  }

  /** Sweeps never touch a wallet's or an account's own floor, and requests only raise
      them: in every run such a floor stays and never falls. */
  lemma {:induction false} OtherFloorsOnlyRise(floors: Floors, es: seq<Event>, maxTtlMs: nat, key: FloorKey, i: nat, j: nat)
    requires !IsSessionKey(key) && i <= j <= |es|
    requires key in After(Start(floors), es[..i], maxTtlMs).floors
    ensures key in After(Start(floors), es[..j], maxTtlMs).floors
    ensures After(Start(floors), es[..i], maxTtlMs).floors[key] <= After(Start(floors), es[..j], maxTtlMs).floors[key]
    decreases j
  {
    hide InWindow;
    if i < j {
      OtherFloorsOnlyRise(floors, es, maxTtlMs, key, i, j - 1);
      assert es[..j] == es[..j - 1] + [es[j - 1]];
      AfterSnoc(Start(floors), es[..j - 1], es[j - 1], maxTtlMs);
      hide After;
    }
  }

  /** Partner of the refusals: a floor is an initial one or an accepted timestamp,
      so a request above both its account's initial floors and every earlier
      accepted timestamp of its signer is accepted. */
  ghost predicate FloorsAreEarned(initial: Floors, s: Server) {
    forall key | key in s.floors ::
      || (key in initial && s.floors[key] == initial[key])
      || Accepted(key, s.floors[key]) in s.accepted
  }

  lemma {:induction false} RunEarnsFloors(initial: Floors, es: seq<Event>, maxTtlMs: nat)
    ensures FloorsAreEarned(initial, After(Start(initial), es, maxTtlMs))
    decreases |es|
  {
    if es != [] {
      RunEarnsFloors(initial, es[..|es| - 1], maxTtlMs);
    }
  }

  lemma HigherTimestampsAreAccepted(initial: Floors, es: seq<Event>, maxTtlMs: nat, e: Event)
    requires e.Request? && e.persisted && InWindow(e.now, e.timestamp)
    requires AboveFloors(initial, e.account, e.signer, e.timestamp)
    requires
      var accepted := After(Start(initial), es, maxTtlMs).accepted;
      forall a | a in accepted && (a.key == Of(e.account, e.signer) || a.key == LegacyOf(e.account)) ::
        a.timestamp < e.timestamp
    ensures
      var s := After(Start(initial), es, maxTtlMs);
      Do(s, e, maxTtlMs).accepted == s.accepted + [Accepted(Of(e.account, e.signer), e.timestamp)]
  {
    RunEarnsFloors(initial, es, maxTtlMs);
    var s := After(Start(initial), es, maxTtlMs);
    forall key | key in s.floors && (key == Of(e.account, e.signer) || key == LegacyOf(e.account))
      ensures s.floors[key] < e.timestamp
    {
    }
  }
}
