/**
One client's authenticated requests (crates/client/src/client.rs): signing, the
bounded retry of replay rejections, and `push_delta`'s fallback from the session
to the wallet. Other clients may change the shared slot while a request waits:
`Others` says what they leave in it, and is arbitrary.
*/
module ReplayRetry {
  import opened Wrappers
  import opened Ascii
  import opened Timestamps
  import opened SessionSlot

  const REPLAY_RETRY_LIMIT: nat := 2

  // ----- error classification (crates/client/src/error.rs) -----

  const AUTHENTICATION_REPLAY_CODE := "authentication_replay"
  const SESSION_EXPIRED_CODE := "session_expired"
  const SESSION_REVOKED_CODE := "session_revoked"
  const WALLET_SIGNATURE_REQUIRED_CODE := "wallet_signature_required"
  const AUTHENTICATION_FAILED_CODE := "authentication_failed"

  /** An accepted push still says whether it succeeded. `code` is the stable code of the
      server's error details, when it sent any. */
  datatype Answer = Accepted(success: bool, body: string) | Refused(code: Option<string>) {
    predicate IsReplayRejection() {
      this == Refused(Some(AUTHENTICATION_REPLAY_CODE))
    }

    predicate IsWalletSignatureRequired() {
      this == Refused(Some(WALLET_SIGNATURE_REQUIRED_CODE))
    }

    predicate IsRejectedSession() {
      || this == Refused(Some(SESSION_EXPIRED_CODE))
      || this == Refused(Some(SESSION_REVOKED_CODE))
      || this == Refused(Some(AUTHENTICATION_FAILED_CODE))
    }
  }

  datatype PushError = ServerError(message: string) | RequestRefused(code: Option<string>)

  // ----- one attempt -----

  datatype AuthMode = SessionMode | WalletMode

  datatype Signature = BySession(key: Key) | ByWallet(commitment: string) | Unsigned

  datatype Message = Message(account: string, body: string, payload: string)

  datatype Request = Request(message: Message, timestamp: I64, signature: Signature)

  type Others = Slot -> Slot

  /** What the environment supplies for one attempt: both clock readings, the
      server's answer, and what other clients do to the slot before the attempt
      signs and while it waits for the answer. */
  datatype Round = Round(nowMs: I64, now: nat, before: Others, answer: Answer, during: Others)

  /** The signature `add_auth_metadata` attaches. */
  function Sign(slot: Slot, wallet: Option<string>, mode: AuthMode, now: nat): Signature {
    var active := if mode == SessionMode then Active(slot, wallet, now) else None;
    if active.Some? then BySession(active.value.key)
    else if wallet.Some? then ByWallet(wallet.value)
    else Unsigned
  }

  /** The slot once the attempt's answer was handled. */
  function Handle(slot: Slot, signature: Signature, answer: Answer): Slot {
    if signature.BySession? && answer.IsRejectedSession() then ClearKey(slot, signature.key) else slot
  }

  // ----- a whole call -----

  /** `sent` with the slots each request was signed from, the final answer, and
      what the client's clock cell and the slot hold when the call returns. */
  datatype Outcome = Outcome(answer: Answer, sent: seq<Request>, signedFrom: seq<Slot>, last: I64, slot: Slot) {
    /** The outcome of a call that made `a` and then this. */
    function After(a: Attempt): Outcome {
      this.(sent := [a.request] + sent, signedFrom := [a.before] + signedFrom)
    }

    /** The outcome of a call that sent `earlier` and then this. */
    ghost function Behind(earlier: seq<Request>, earlierSlots: seq<Slot>): Outcome {
      this.(sent := earlier + sent, signedFrom := earlierSlots + signedFrom)
    }
  }

  /** One attempt: its request, the slot it was signed from, the slot it leaves. */
  datatype Attempt = Attempt(request: Request, before: Slot, after: Slot)

  function Try(last: I64, slot: Slot, wallet: Option<string>, message: Message, mode: AuthMode, round: Round): Attempt {
    var before := round.before(slot);
    var signature := Sign(before, wallet, mode, round.now);
    Attempt(Request(message, Mint(last, round.nowMs), signature), before,
            Handle(round.during(before), signature, round.answer))
  }

  function Attempts(last: I64, slot: Slot, wallet: Option<string>, message: Message, mode: AuthMode,
                    retriesLeft: nat, rounds: seq<Round>): Outcome
    requires retriesLeft < |rounds|
    decreases retriesLeft
  {
    var answer := rounds[0].answer;
    var a := Try(last, slot, wallet, message, mode, rounds[0]);
    if retriesLeft == 0 || !answer.IsReplayRejection() then
      Outcome(answer, [a.request], [a.before], a.request.timestamp, a.after)
    else
      Attempts(a.request.timestamp, a.after, wallet, message, mode, retriesLeft - 1, rounds[1..]).After(a)
  }

  class GuardianClient {
    var wallet: Option<string>
    const lastTimestamp: AtomicI64
    const slot: SharedSlot

    constructor (wallet: Option<string>, slot: SharedSlot)
      ensures this.wallet == wallet && this.slot == slot
      ensures fresh(lastTimestamp) && lastTimestamp.value == 0
    {
      this.wallet := wallet;
      this.slot := slot;
      this.lastTimestamp := new AtomicI64(0);
    }

    /** `add_auth_metadata`: mints, then signs in one lock section. A client is
        held exclusively while it sends, so its own cell is not contended. */
    method AddAuthMetadata(mode: AuthMode, nowMs: I64, now: nat) returns (timestamp: I64, signature: Signature)
      modifies lastTimestamp
      ensures timestamp == lastTimestamp.value == Mint(old(lastTimestamp.value), nowMs)
      ensures signature == Sign(slot.session, wallet, mode, now)
    {
      var minted, attempt := NextMonotonicTimestamp(lastTimestamp, nowMs,
                                                    [Interference(lastTimestamp.value, false)]);
      assert Takes(old(lastTimestamp.value), [Interference(old(lastTimestamp.value), false)], 0);
      timestamp := lastTimestamp.value;
      if mode == SessionMode && wallet.Some? {
        var active := Active(slot.session, wallet, now);
        if active.Some? {
          return timestamp, BySession(active.value.key);
        }
      }
      return timestamp, if wallet.Some? then ByWallet(wallet.value) else Unsigned;
    }

    /** The body of the retry loop: sign, send, and drop a session the server rejected. */
    method SendOnce(message: Message, mode: AuthMode, round: Round) returns (request: Request, ghost before: Slot)
      modifies lastTimestamp, slot
      ensures Attempt(request, before, slot.session)
              == Try(old(lastTimestamp.value), old(slot.session), wallet, message, mode, round)
      ensures lastTimestamp.value == request.timestamp
    {
      hide Sign, Mint;
      slot.session := round.before(slot.session);
      before := slot.session;
      var timestamp, signature := AddAuthMetadata(mode, round.nowMs, round.now);
      request := Request(message, timestamp, signature);
      slot.session := round.during(slot.session);
      if signature.BySession? && round.answer.IsRejectedSession() {
        slot.Clear(signature.key);
      }
    }

    /** `send_with_replay_retry_as`. */
    method SendWithReplayRetryAs(message: Message, mode: AuthMode, discardAt: nat, rounds: seq<Round>)
        returns (answer: Answer, sent: seq<Request>, ghost signedFrom: seq<Slot>)
      requires |rounds| > REPLAY_RETRY_LIMIT
      modifies lastTimestamp, slot
      ensures
        Outcome(answer, sent, signedFrom, lastTimestamp.value, slot.session)
        == Attempts(old(lastTimestamp.value), DiscardExpired(old(slot.session), discardAt), wallet,
                    message, mode, REPLAY_RETRY_LIMIT, rounds)
    {
      hide Attempts, Try, Answer.IsReplayRejection, DiscardExpired, Outcome.Behind;
      slot.Discard(discardAt);
      ghost var whole := Attempts(lastTimestamp.value, slot.session, wallet, message, mode,
                                  REPLAY_RETRY_LIMIT, rounds);
      var retriesLeft: nat := REPLAY_RETRY_LIMIT;
      var k: nat := 0;
      sent, signedFrom := [], [];
      assert rounds[k..] == rounds;
      BehindNothing(whole);
      while true
        invariant k + retriesLeft == REPLAY_RETRY_LIMIT
        invariant
          whole == Attempts(lastTimestamp.value, slot.session, wallet, message, mode, retriesLeft, rounds[k..])
                   .Behind(sent, signedFrom)
        decreases retriesLeft
      {
        var round := rounds[k];
        assert rounds[k..][0] == round && rounds[k..][1..] == rounds[k + 1..];
        AttemptsUnfold(lastTimestamp.value, slot.session, wallet, message, mode, retriesLeft, rounds[k..], sent, signedFrom);
        var request, before := SendOnce(message, mode, round);
        sent, signedFrom := sent + [request], signedFrom + [before];
        if retriesLeft == 0 || !round.answer.IsReplayRejection() {
          return round.answer, sent, signedFrom;
        }
        retriesLeft, k := retriesLeft - 1, k + 1;
      }
    }

    /** `push_delta`: the session first; the wallet only when the server demands it. An
        accepted push that did not succeed is an error. */
    method PushDelta(message: Message, discardAt: nat, rounds: seq<Round>, discardAgainAt: nat, walletRounds: seq<Round>)
        returns (result: Result<string, PushError>, sent: seq<Request>)
      requires |rounds| > REPLAY_RETRY_LIMIT && |walletRounds| > REPLAY_RETRY_LIMIT
      modifies lastTimestamp, slot
      ensures
        var pushed := Push(old(lastTimestamp.value), old(slot.session), wallet, message,
                           discardAt, rounds, discardAgainAt, walletRounds);
        && sent == pushed.sent && lastTimestamp.value == pushed.last && slot.session == pushed.slot
        && (result.Ok? <==> pushed.answer.Accepted? && pushed.answer.success)
        && (result.Ok? ==> result.value == pushed.answer.body)
        && (result.Err? && pushed.answer.Accepted? ==> result.error == ServerError(pushed.answer.body))
        && (result.Err? && pushed.answer.Refused? ==> result.error == RequestRefused(pushed.answer.code))
    {
      var first, sentFirst, _ := SendWithReplayRetryAs(message, SessionMode, discardAt, rounds);
      if first.IsWalletSignatureRequired() {
        var second, sentSecond, _ := SendWithReplayRetryAs(message, WalletMode, discardAgainAt, walletRounds);
        return Concluded(second), sentFirst + sentSecond;
      }
      return Concluded(first), sentFirst;
    }

    static function Concluded(answer: Answer): Result<string, PushError> {
      match answer
      case Accepted(success, body) => if success then Ok(body) else Err(ServerError(body))
      case Refused(code) => Err(RequestRefused(code))
    }
  }

  lemma BehindNothing(o: Outcome)
    ensures o == o.Behind([], [])
  {
  }

  /** One turn of the loop, in terms of what was already sent. */
  lemma AttemptsUnfold(last: I64, slot: Slot, wallet: Option<string>, message: Message, mode: AuthMode,
                       retriesLeft: nat, rounds: seq<Round>, sent: seq<Request>, signedFrom: seq<Slot>)
    requires retriesLeft < |rounds|
    ensures
      var o := Attempts(last, slot, wallet, message, mode, retriesLeft, rounds);
      var a := Try(last, slot, wallet, message, mode, rounds[0]);
      o.Behind(sent, signedFrom) ==
        if retriesLeft == 0 || !rounds[0].answer.IsReplayRejection() then
          Outcome(rounds[0].answer, sent + [a.request], signedFrom + [a.before], a.request.timestamp, a.after)
        else
          Attempts(a.request.timestamp, a.after, wallet, message, mode, retriesLeft - 1, rounds[1..])
          .Behind(sent + [a.request], signedFrom + [a.before])
  {
    hide Try, Answer.IsReplayRejection;
    var a := Try(last, slot, wallet, message, mode, rounds[0]);
    if retriesLeft > 0 && rounds[0].answer.IsReplayRejection() {
      var rest := Attempts(a.request.timestamp, a.after, wallet, message, mode, retriesLeft - 1, rounds[1..]);
      assert sent + ([a.request] + rest.sent) == (sent + [a.request]) + rest.sent;
      assert signedFrom + ([a.before] + rest.signedFrom) == (signedFrom + [a.before]) + rest.signedFrom;
    }
  }

  function Push(last: I64, slot: Slot, wallet: Option<string>, message: Message,
                discardAt: nat, rounds: seq<Round>, discardAgainAt: nat, walletRounds: seq<Round>): Outcome
    requires |rounds| > REPLAY_RETRY_LIMIT && |walletRounds| > REPLAY_RETRY_LIMIT
  {
    var first := Attempts(last, DiscardExpired(slot, discardAt), wallet, message, SessionMode, REPLAY_RETRY_LIMIT, rounds);
    if first.answer.IsWalletSignatureRequired() then
      var second := Attempts(first.last, DiscardExpired(first.slot, discardAgainAt), wallet, message,
                             WalletMode, REPLAY_RETRY_LIMIT, walletRounds);
      second.(sent := first.sent + second.sent, signedFrom := first.signedFrom + second.signedFrom)
    else
      first
  }

  // ----- what a call guarantees, whatever the server answers -----

  /** One to `retriesLeft + 1` requests go out. A request is followed by another
      exactly when it was refused as a replay and retries were left, so any other
      answer (a rejected session in particular) ends the call at once. */
  lemma {:induction false} AttemptsFollowAnswers(last: I64, slot: Slot, wallet: Option<string>, message: Message,
                                                 mode: AuthMode, retriesLeft: nat, rounds: seq<Round>)
    requires retriesLeft < |rounds|
    ensures
      var o := Attempts(last, slot, wallet, message, mode, retriesLeft, rounds);
      && 1 <= |o.sent| <= retriesLeft + 1
      && |o.signedFrom| == |o.sent|
      && o.answer == rounds[|o.sent| - 1].answer
      && (forall k | 0 <= k < |o.sent| - 1 :: rounds[k].answer.IsReplayRejection())
      && (|o.sent| <= retriesLeft ==> !o.answer.IsReplayRejection())
    decreases retriesLeft
  {
    hide Try;
    var a := Try(last, slot, wallet, message, mode, rounds[0]);
    if retriesLeft > 0 && rounds[0].answer.IsReplayRejection() {
      AttemptsFollowAnswers(a.request.timestamp, a.after, wallet, message, mode, retriesLeft - 1, rounds[1..]);
      assert forall k | 0 < k < |rounds| :: rounds[k] == rounds[1..][k - 1];
    }
  }

  /** What makes a batch of requests acceptable: one message, timestamps that
      grow from `last` (strictly below the ceiling) and reach the clock, and
      signatures by the session that was active in the slot, else by the wallet. */
  ghost predicate WellSent(o: Outcome, last: I64, wallet: Option<string>, message: Message, mode: AuthMode,
                           rounds: seq<Round>)
  {
    && |o.sent| == |o.signedFrom| <= |rounds|
    && (forall k | 0 <= k < |o.sent| :: SentAt(o, k, wallet, message, mode, rounds))
    && Growing(last, o.sent)
    && o.last == if o.sent == [] then last else o.sent[|o.sent| - 1].timestamp
  }

  ghost predicate SentAt(o: Outcome, k: nat, wallet: Option<string>, message: Message, mode: AuthMode, rounds: seq<Round>)
    requires k < |o.sent| == |o.signedFrom| <= |rounds|
  {
    && o.sent[k].message == message
    && rounds[k].nowMs <= o.sent[k].timestamp
    && IsDue(o.sent[k].signature, o.signedFrom[k], wallet, mode, rounds[k].now)
  }

  /** Whose signature a request must carry: the slot's session when the route
      allows one and the slot holds one that is not about to expire and was
      registered for the wallet; else the wallet's; none without a wallet. */
  predicate IsDue(signature: Signature, slot: Slot, wallet: Option<string>, mode: AuthMode, now: nat) {
    match signature
    case BySession(key) =>
      && mode == SessionMode
      && Holds(slot, key)
      && Fresh(slot.value, now)
      && wallet.Some?
      && EqIgnoreCase(slot.value.signer, wallet.value)
    case ByWallet(commitment) =>
      && wallet == Some(commitment)
      && (mode == SessionMode && slot.Some? && Fresh(slot.value, now) ==> !EqIgnoreCase(slot.value.signer, commitment))
    case Unsigned => wallet.None?
  }

  /** Later than: never below, and above unless at the ceiling. */
  predicate Later(earlier: I64, later: I64) {
    earlier <= later && (earlier < I64_MAX ==> earlier < later)
  }

  ghost predicate Growing(last: I64, sent: seq<Request>) {
    && (forall k | 0 <= k < |sent| :: Later(last, sent[k].timestamp))
    && (forall j, k | 0 <= j < k < |sent| :: Later(sent[j].timestamp, sent[k].timestamp))
  }

  lemma GrowingConcat(last: I64, first: seq<Request>, rest: seq<Request>)
    requires Growing(last, first)
    requires Growing(if first == [] then last else first[|first| - 1].timestamp, rest)
    ensures Growing(last, first + rest)
  {
    var both := first + rest;
    forall k | 0 <= k < |both| ensures Later(last, both[k].timestamp) {
      if |first| <= k {
        assert both[k] == rest[k - |first|];
      }
    }
    forall j, k | 0 <= j < k < |both| ensures Later(both[j].timestamp, both[k].timestamp) {
      if |first| <= k {
        assert both[k] == rest[k - |first|];
      }
    }
  }

  lemma {:induction false} AttemptsAreWellSent(last: I64, slot: Slot, wallet: Option<string>, message: Message,
                                               mode: AuthMode, retriesLeft: nat, rounds: seq<Round>)
    requires retriesLeft < |rounds|
    ensures WellSent(Attempts(last, slot, wallet, message, mode, retriesLeft, rounds), last, wallet, message, mode, rounds)
    decreases retriesLeft
  {
    hide Try, Answer.IsReplayRejection, WellSent;
    var a := Try(last, slot, wallet, message, mode, rounds[0]);
    if retriesLeft > 0 && rounds[0].answer.IsReplayRejection() {
      AttemptsAreWellSent(a.request.timestamp, a.after, wallet, message, mode, retriesLeft - 1, rounds[1..]);
      var rest := Attempts(a.request.timestamp, a.after, wallet, message, mode, retriesLeft - 1, rounds[1..]);
      WellSentCons(rest, last, slot, wallet, message, mode, rounds);
    } else {
      var rest := Outcome(rounds[0].answer, [], [], a.request.timestamp, a.after);
      assert WellSent(rest, rest.last, wallet, message, mode, rounds[1..]) by {
        NothingIsWellSent(rest, wallet, message, mode, rounds[1..]);
      }
      WellSentCons(rest, last, slot, wallet, message, mode, rounds);
      assert [a.request] + [] == [a.request] && [a.before] + [] == [a.before];
    }
  }

  lemma NothingIsWellSent(o: Outcome, wallet: Option<string>, message: Message, mode: AuthMode, rounds: seq<Round>)
    requires o.sent == [] && o.signedFrom == []
    ensures WellSent(o, o.last, wallet, message, mode, rounds)
  {
  }

  lemma WellSentCons(rest: Outcome, last: I64, slot: Slot, wallet: Option<string>, message: Message,
                     mode: AuthMode, rounds: seq<Round>)
    requires rounds != []
    requires
      var a := Try(last, slot, wallet, message, mode, rounds[0]);
      WellSent(rest, a.request.timestamp, wallet, message, mode, rounds[1..])
    ensures WellSent(rest.After(Try(last, slot, wallet, message, mode, rounds[0])), last, wallet, message, mode, rounds)
  {
    MintAdvances(last, rounds[0].nowMs);
    var a := Try(last, slot, wallet, message, mode, rounds[0]);
    GrowingOne(last, a.request);
    GrowingConcat(last, [a.request], rest.sent);
    assert IsDue(a.request.signature, a.before, wallet, mode, rounds[0].now);
    hide Sign, Mint, Growing, IsDue;
    forall k | 0 <= k < |rest.sent| + 1 ensures SentAt(rest.After(a), k, wallet, message, mode, rounds) {
      assert 0 < k ==> SentAt(rest, k - 1, wallet, message, mode, rounds[1..]);
    }
  }

  lemma GrowingOne(last: I64, request: Request)
    requires Later(last, request.timestamp)
    ensures Growing(last, [request])
  {
  }

  /** A session that the server rejected is out of the slot when the call returns. */
  lemma {:induction false} RejectedSessionIsDropped(last: I64, slot: Slot, wallet: Option<string>, message: Message,
                                                    mode: AuthMode, retriesLeft: nat, rounds: seq<Round>)
    requires retriesLeft < |rounds|
    ensures
      var o := Attempts(last, slot, wallet, message, mode, retriesLeft, rounds);
      && o.sent != []
      && var final := o.sent[|o.sent| - 1].signature;
         o.answer.IsRejectedSession() && final.BySession? ==> !Holds(o.slot, final.key)
    decreases retriesLeft
  {
    hide Sign, Mint, Answer.IsReplayRejection, Answer.IsRejectedSession;
    var a := Try(last, slot, wallet, message, mode, rounds[0]);
    if retriesLeft > 0 && rounds[0].answer.IsReplayRejection() {
      RejectedSessionIsDropped(a.request.timestamp, a.after, wallet, message, mode, retriesLeft - 1, rounds[1..]);
    }
  }

  /** `push_delta` sends at most six requests, all with one message and growing
      timestamps. Session signatures appear only in the first three, and the
      wallet takes over exactly when the server demanded its signature. */
  lemma PushGuarantees(last: I64, slot: Slot, wallet: Option<string>, message: Message, discardAt: nat,
                       rounds: seq<Round>, discardAgainAt: nat, walletRounds: seq<Round>, first: Outcome, o: Outcome)
    requires |rounds| > REPLAY_RETRY_LIMIT && |walletRounds| > REPLAY_RETRY_LIMIT
    requires first == Attempts(last, DiscardExpired(slot, discardAt), wallet, message, SessionMode, REPLAY_RETRY_LIMIT, rounds)
    requires o == Push(last, slot, wallet, message, discardAt, rounds, discardAgainAt, walletRounds)
    ensures 1 <= |first.sent| <= 3
    ensures |first.sent| <= |o.sent| <= |first.sent| + 3
    ensures first.sent <= o.sent
    ensures |o.sent| > |first.sent| <==> rounds[|first.sent| - 1].answer.IsWalletSignatureRequired()
    ensures forall k | |first.sent| <= k < |o.sent| :: !o.sent[k].signature.BySession?
    ensures forall k | 0 <= k < |o.sent| :: o.sent[k].message == message
    ensures Growing(last, o.sent)
  {
    hide Attempts, Growing;
    var expired := DiscardExpired(slot, discardAt);
    AttemptsFollowAnswers(last, expired, wallet, message, SessionMode, REPLAY_RETRY_LIMIT, rounds);
    AttemptsAreWellSent(last, expired, wallet, message, SessionMode, REPLAY_RETRY_LIMIT, rounds);
    forall k | 0 <= k < |first.sent| ensures first.sent[k].message == message {
      assert SentAt(first, k, wallet, message, SessionMode, rounds);
    }
    if first.answer.IsWalletSignatureRequired() {
      var again := DiscardExpired(first.slot, discardAgainAt);
      var second := Attempts(first.last, again, wallet, message, WalletMode, REPLAY_RETRY_LIMIT, walletRounds);
      AttemptsFollowAnswers(first.last, again, wallet, message, WalletMode, REPLAY_RETRY_LIMIT, walletRounds);
      AttemptsAreWellSent(first.last, again, wallet, message, WalletMode, REPLAY_RETRY_LIMIT, walletRounds);
      GrowingConcat(last, first.sent, second.sent);
      forall k | 0 <= k < |second.sent|
        ensures second.sent[k].message == message && !second.sent[k].signature.BySession?
      {
        assert SentAt(second, k, wallet, message, WalletMode, walletRounds);
      }
    }
  }
}
