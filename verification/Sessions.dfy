/**
Any number of clients that share one session slot (crates/client/src/client.rs).
Every lock section, send and answer is one atomic event; clocks, server answers
and the interleaving are arbitrary, and generated session keys are fresh.
Minting touches only the client's own cell, so it is part of the event that
signs.
*/
module Sessions {
  import opened Wrappers
  import opened Ascii
  import opened Timestamps
  import opened SessionSlot
  import opened ReplayRetry

  const MIN_SESSION_TTL: nat := 300
  const MAX_SESSION_TTL: nat := 8 * 60 * 60

  type ClientId = nat

  /** What a client waits for. */
  datatype Pc =
    | Idle
    | Preparing(mode: AuthMode, retriesLeft: nat)
    | InFlight(mode: AuthMode, retriesLeft: nat, signedWith: Option<Key>)
    | Granting(key: Key, expiresAt: nat, grantor: string)
    | Revoking(key: Key)
    | RevokingAll(captured: Option<Key>)

  datatype Client = Client(wallet: Option<string>, last: I64, pc: Pc)

  /** A signature made with a session key: on a request of a client of `wallet`,
      or on a logout. */
  datatype Use = Use(client: ClientId, session: Session, wallet: Option<string>, now: nat, timestamp: I64, logout: bool) {
    /** The rule for requests: not about to expire, and registered for the wallet. */
    predicate KeepsTheRule() {
      wallet.Some? && Fresh(session, now) && EqIgnoreCase(session.signer, wallet.value)
    }
  }

  /** `generated` are the keys ever generated, `held` those the slot ever held,
      `uses` the session signatures made so far. */
  datatype World = World(slot: Slot, clients: map<ClientId, Client>,
                         generated: set<Key>, held: set<Key>, uses: seq<Use>)

  datatype Event =
    | Configure(client: ClientId, wallet: Option<string>)
    | BeginSend(client: ClientId, mode: AuthMode, now: nat)
    | SignRequest(client: ClientId, nowMs: I64, now: nat)
    | Answered(client: ClientId, answer: Answer)
    | BeginGrant(client: ClientId, ttl: nat, now: nat, key: Key)
    | Granted(client: ClientId, echo: Option<string>)
    | BeginRevoke(client: ClientId, nowMs: I64, now: nat)
    | Revoked(client: ClientId, ok: bool)
    | BeginRevokeAll(client: ClientId, nowMs: I64)
    | RevokedAll(client: ClientId, ok: bool)

  predicate Enabled(w: World, e: Event) {
    && e.client in w.clients
    && var c := w.clients[e.client];
       match e
       case Configure(_, _) => c.pc.Idle?
       case BeginSend(_, _, _) => c.pc.Idle?
       case SignRequest(_, _, _) => c.pc.Preparing?
       case Answered(_, _) => c.pc.InFlight?
       case BeginGrant(_, ttl, _, key) =>
         c.pc.Idle? && c.wallet.Some? && MIN_SESSION_TTL < ttl <= MAX_SESSION_TTL && key !in w.generated
       case Granted(_, _) => c.pc.Granting?
       case BeginRevoke(_, _, _) => c.pc.Idle?
       case Revoked(_, _) => c.pc.Revoking?
       case BeginRevokeAll(_, _) => c.pc.Idle? && c.wallet.Some?
       case RevokedAll(_, _) => c.pc.RevokingAll?
  }

  function Put(w: World, id: ClientId, c: Client): World {
    w.(clients := w.clients[id := c])
  }

  function Do(w: World, e: Event): World
    requires Enabled(w, e)
  {
    var c := w.clients[e.client];
    match e
    case Configure(id, wallet) => Put(w, id, c.(wallet := wallet))
    case BeginSend(id, mode, now) =>
      Put(w.(slot := DiscardExpired(w.slot, now)), id, c.(pc := Preparing(mode, REPLAY_RETRY_LIMIT)))
    case SignRequest(id, nowMs, now) =>
      var timestamp := Mint(c.last, nowMs);
      var active := if c.pc.mode == SessionMode then Active(w.slot, c.wallet, now) else None;
      if active.Some? then
        Put(w.(uses := w.uses + [Use(id, active.value, c.wallet, now, timestamp, false)]), id,
            c.(last := timestamp, pc := InFlight(c.pc.mode, c.pc.retriesLeft, Some(active.value.key))))
      else
        Put(w, id, c.(last := timestamp, pc := InFlight(c.pc.mode, c.pc.retriesLeft, None)))
    case Answered(id, answer) =>
      var pc := if answer.IsReplayRejection() && c.pc.retriesLeft > 0
                then Preparing(c.pc.mode, c.pc.retriesLeft - 1) else Idle;
      var slot := if c.pc.signedWith.Some? && answer.IsRejectedSession()
                  then ClearKey(w.slot, c.pc.signedWith.value) else w.slot;
      Put(w.(slot := slot), id, c.(pc := pc))
    case BeginGrant(id, ttl, now, key) =>
      Put(w.(generated := w.generated + {key}), id, c.(pc := Granting(key, now + ttl, c.wallet.value)))
    case Granted(id, echo) =>
      if echo.Some? then
        Put(w.(slot := Some(Session(c.pc.key, echo.value, c.pc.expiresAt, c.pc.grantor)),
               held := w.held + {c.pc.key}), id, c.(pc := Idle))
      else
        Put(w, id, c.(pc := Idle))
    case BeginRevoke(id, nowMs, now) =>
      var timestamp := Mint(c.last, nowMs);
      if w.slot.Some? then
        Put(w.(uses := w.uses + [Use(id, w.slot.value, c.wallet, now, timestamp, true)]), id,
            c.(last := timestamp, pc := Revoking(w.slot.value.key)))
      else
        Put(w, id, c.(last := timestamp))
    case Revoked(id, ok) =>
      Put(if ok then w.(slot := ClearKey(w.slot, c.pc.key)) else w, id, c.(pc := Idle))
    case BeginRevokeAll(id, nowMs) =>
      Put(w, id, c.(last := Mint(c.last, nowMs), pc := RevokingAll(GrantedTo(w.slot, c.wallet.value))))
    case RevokedAll(id, ok) =>
      Put(if ok && c.pc.captured.Some? then w.(slot := ClearKey(w.slot, c.pc.captured.value)) else w,
          id, c.(pc := Idle))
  }

  /** A run: `ws[i + 1]` is what event `i` makes of `ws[i]`. */
  ghost predicate Run(ws: seq<World>, es: seq<Event>) {
    && |ws| == |es| + 1
    && forall i | 0 <= i < |es| :: StepAt(ws, es, i)
  }

  ghost predicate StepAt(ws: seq<World>, es: seq<Event>, i: nat)
    requires i < |es| && |ws| == |es| + 1
  {
    Enabled(ws[i], es[i]) && ws[i + 1] == Do(ws[i], es[i])
  }

  /** Where a run starts: no session, nobody in the middle of anything. */
  predicate Initial(w: World) {
    && w.slot.None? && w.generated == {} && w.held == {} && w.uses == []
    && forall id | id in w.clients :: w.clients[id].pc.Idle?
  }

  // ----- keys -----

  /** Keys the slot held were generated; a key being granted was not yet held
      and is being granted by one client only. */
  ghost predicate KeysInv(w: World) {
    && w.held <= w.generated
    && (w.slot.Some? ==> w.slot.value.key in w.held)
    && (forall id | id in w.clients && w.clients[id].pc.Granting? ::
          w.clients[id].pc.key in w.generated && w.clients[id].pc.key !in w.held)
    && (forall id, other | id in w.clients && other in w.clients && id != other
                           && w.clients[id].pc.Granting? && w.clients[other].pc.Granting? ::
          w.clients[id].pc.key != w.clients[other].pc.key)
  }

  lemma StepKeepsKeys(w: World, e: Event)
    requires KeysInv(w) && Enabled(w, e)
    ensures KeysInv(Do(w, e))
    ensures w.held <= Do(w, e).held
    ensures forall key | key in w.held && !Holds(w.slot, key) :: !Holds(Do(w, e).slot, key)
  {
    hide Active, GrantedTo, Mint, Fresh, Answer.IsReplayRejection, Answer.IsRejectedSession;
  }

  lemma {:induction false} RunKeepsKeys(ws: seq<World>, es: seq<Event>, i: nat)
    requires Run(ws, es) && Initial(ws[0]) && i < |ws|
    ensures KeysInv(ws[i])
  {
    if i > 0 {
      RunKeepsKeys(ws, es, i - 1);
      assert StepAt(ws, es, i - 1);
      StepKeepsKeys(ws[i - 1], es[i - 1]);
    }
  }

  /** Each session key occupies the slot for at most one interval: once the slot
      held it and no longer does, it never holds it again. */
  lemma {:induction false} KeyNeverReturns(ws: seq<World>, es: seq<Event>, key: Key, i: nat, j: nat, k: nat)
    requires Run(ws, es) && Initial(ws[0]) && i <= j <= k < |ws|
    requires Holds(ws[i].slot, key) && !Holds(ws[j].slot, key)
    ensures key in ws[k].held && !Holds(ws[k].slot, key)
    decreases k
  {
    RunKeepsKeys(ws, es, i);
    if j < k {
      KeyNeverReturns(ws, es, key, i, j, k - 1);
      RunKeepsKeys(ws, es, k - 1);
      assert StepAt(ws, es, k - 1);
      StepKeepsKeys(ws[k - 1], es[k - 1]);
    } else {
      HeldStaysHeld(ws, es, key, i, k);
    }
  }

  lemma {:induction false} HeldStaysHeld(ws: seq<World>, es: seq<Event>, key: Key, i: nat, k: nat)
    requires Run(ws, es) && Initial(ws[0]) && i <= k < |ws| && key in ws[i].held
    ensures key in ws[k].held
    decreases k
  {
    if i < k {
      HeldStaysHeld(ws, es, key, i, k - 1);
      RunKeepsKeys(ws, es, k - 1);
      assert StepAt(ws, es, k - 1);
      StepKeepsKeys(ws[k - 1], es[k - 1]);
    }
  }

  /** What may end a session: its own expiry, a refusal of a request it signed,
      a revocation that captured it, or a new grant taking its place. */
  predicate Ends(w: World, e: Event, session: Session)
    requires Enabled(w, e)
  {
    var pc := w.clients[e.client].pc;
    match e
    case BeginSend(_, _, now) => now + SESSION_EXPIRY_MARGIN_SECS >= session.expiresAt
    case Answered(_, answer) => pc.signedWith == Some(session.key) && answer.IsRejectedSession()
    case Granted(_, echo) => echo.Some?
    case Revoked(_, ok) => ok && pc.key == session.key
    case RevokedAll(_, ok) => ok && pc.captured == Some(session.key)
    case _ => false
  }

  /** A session leaves the slot exactly when one of those happens to it: a late
      clear for an old key never removes a newer session. */
  lemma OnlyItsOwnEventsEndASession(w: World, e: Event)
    requires KeysInv(w) && Enabled(w, e) && w.slot.Some?
    ensures Holds(Do(w, e).slot, w.slot.value.key) <==> !Ends(w, e, w.slot.value)
    ensures !Ends(w, e, w.slot.value) ==> Do(w, e).slot == w.slot
    ensures Ends(w, e, w.slot.value) && !e.Granted? ==> Do(w, e).slot.None?
  {
    hide Active, GrantedTo, Mint, Answer.IsReplayRejection, Answer.IsRejectedSession;
  }

  // ----- which session is in force -----

  /** The event is the answer that registers the session. */
  predicate Starts(w: World, e: Event, session: Session) {
    && Enabled(w, e) && e.Granted? && e.echo.Some?
    && var pc := w.clients[e.client].pc;
       session == Session(pc.key, e.echo.value, pc.expiresAt, pc.grantor)
  }

  /** Event `m` registered the session and none since ended it. */
  ghost predicate InForce(ws: seq<World>, es: seq<Event>, session: Session, m: nat, i: nat)
    requires i <= |es| < |ws|
  {
    && m < i
    && Starts(ws[m], es[m], session)
    && forall n | m < n < i :: !(Enabled(ws[n], es[n]) && Ends(ws[n], es[n], session))
  }

  /** Only a registration fills the slot, with the session it registers. */
  lemma OnlyGrantsFillTheSlot(w: World, e: Event, session: Session)
    requires Enabled(w, e)
    ensures Starts(w, e, session) ==> Do(w, e).slot == Some(session)
    ensures Do(w, e).slot == Some(session) ==> Starts(w, e, session) || (w.slot == Some(session) && !(e.Granted? && e.echo.Some?))
  {
    hide Active, GrantedTo, Mint, Fresh, Answer.IsReplayRejection, Answer.IsRejectedSession;
  }

  /** In every run the slot holds exactly the session in force. */
  lemma {:induction false} SlotHoldsTheSessionInForce(ws: seq<World>, es: seq<Event>, session: Session, i: nat)
    requires Run(ws, es) && Initial(ws[0]) && i < |ws|
    ensures ws[i].slot == Some(session) <==> exists m: nat :: InForce(ws, es, session, m, i)
    decreases i
  {
    hide Do, Enabled, Ends, Starts, KeysInv;
    if i > 0 {
      var w, e := ws[i - 1], es[i - 1];
      SlotHoldsTheSessionInForce(ws, es, session, i - 1);
      RunKeepsKeys(ws, es, i - 1);
      assert StepAt(ws, es, i - 1);
      OnlyGrantsFillTheSlot(w, e, session);
      if w.slot == Some(session) {
        OnlyItsOwnEventsEndASession(w, e);
      }
      if ws[i].slot == Some(session) {
        if Starts(w, e, session) {
          assert InForce(ws, es, session, i - 1, i);
        } else {
          var m: nat :| InForce(ws, es, session, m, i - 1);
          assert InForce(ws, es, session, m, i);
        }
      }
      forall m: nat | InForce(ws, es, session, m, i)
        ensures ws[i].slot == Some(session)
      {
        assert m == i - 1 || InForce(ws, es, session, m, i - 1);
      }
    }
  }

  // ----- uses -----

  /** A use is by a key the slot held, and later than the client's earlier uses.
      On a request the session was also not about to expire and registered for
      the wallet the client signs for. */
  ghost predicate UsesInv(w: World) {
    && (forall k | 0 <= k < |w.uses| :: RightUse(w, w.uses[k]))
    && (forall j, k | 0 <= j < k < |w.uses| && w.uses[j].client == w.uses[k].client ::
          Later(w.uses[j].timestamp, w.uses[k].timestamp))
  }

  ghost predicate RightUse(w: World, u: Use) {
    && u.session.key in w.held
    && u.client in w.clients
    && u.timestamp <= w.clients[u.client].last
    && (!u.logout ==> u.KeepsTheRule())
  }

  /** A new use is of the session in the slot at that moment. */
  lemma NewUsesAreOfTheSlot(w: World, e: Event)
    requires Enabled(w, e)
    ensures w.uses <= Do(w, e).uses
    ensures |Do(w, e).uses| <= |w.uses| + 1
    ensures forall k | |w.uses| <= k < |Do(w, e).uses| :: Some(Do(w, e).uses[k].session) == w.slot
  {
  }

  lemma ClocksAdvance(w: World, e: Event)
    requires Enabled(w, e)
    ensures Do(w, e).clients.Keys == w.clients.Keys
    ensures forall id | id in w.clients :: w.clients[id].last <= Do(w, e).clients[id].last
  {
    hide Active, GrantedTo, Fresh, ClearKey, DiscardExpired, Answer.IsReplayRejection, Answer.IsRejectedSession;
  }

  lemma NewUseIsRight(w: World, e: Event)
    requires KeysInv(w) && Enabled(w, e) && |Do(w, e).uses| == |w.uses| + 1
    ensures
      var u := Do(w, e).uses[|w.uses|];
      && RightUse(Do(w, e), u)
      && u.client == e.client
      && Later(w.clients[e.client].last, u.timestamp)
  {
    hide Fresh, EqIgnoreCase;
    match e
    case SignRequest(id, nowMs, _) => MintAdvances(w.clients[id].last, nowMs);
    case BeginRevoke(id, nowMs, now) => MintAdvances(w.clients[id].last, nowMs);
  }

  lemma StepKeepsUses(w: World, e: Event)
    requires KeysInv(w) && UsesInv(w) && Enabled(w, e)
    ensures UsesInv(Do(w, e))
  {
    hide Do;
    NewUsesAreOfTheSlot(w, e);
    ClocksAdvance(w, e);
    StepKeepsKeys(w, e);
    var v := Do(w, e);
    if |v.uses| == |w.uses| + 1 {
      NewUseIsRight(w, e);
    }
    forall k | 0 <= k < |v.uses| ensures RightUse(v, v.uses[k]) {
      assert k < |w.uses| ==> v.uses[k] == w.uses[k] && RightUse(w, w.uses[k]);
    }
    forall j, k | 0 <= j < k < |v.uses| && v.uses[j].client == v.uses[k].client
      ensures Later(v.uses[j].timestamp, v.uses[k].timestamp)
    {
      assert v.uses[j] == w.uses[j] && RightUse(w, w.uses[j]);
      assert k < |w.uses| ==> v.uses[k] == w.uses[k];
    }
  }

  /** In every run a request is signed with a session exactly when its route takes one
      and that session is in force, not about to expire and registered for the client's
      wallet; it is signed by the wallet otherwise. */
  lemma SignsWithASessionExactlyWhen(ws: seq<World>, es: seq<Event>, session: Session, i: nat)
    requires Run(ws, es) && Initial(ws[0]) && i < |es| && es[i].SignRequest?
    ensures es[i].client in ws[i].clients && ws[i].clients[es[i].client].pc.Preparing?
    ensures
      var c := ws[i].clients[es[i].client];
      var timestamp := Mint(c.last, es[i].nowMs);
      ws[i + 1].uses == ws[i].uses + [Use(es[i].client, session, c.wallet, es[i].now, timestamp, false)] <==>
      && c.pc.mode == SessionMode
      && (exists m: nat :: InForce(ws, es, session, m, i))
      && Fresh(session, es[i].now)
      && c.wallet.Some? && EqIgnoreCase(session.signer, c.wallet.value)
  {
    hide InForce, Fresh, EqIgnoreCase, Mint;
    assert StepAt(ws, es, i);
    SlotHoldsTheSessionInForce(ws, es, session, i);
    var c := ws[i].clients[es[i].client];
    var before, after := ws[i].uses, ws[i + 1].uses;
    var use := Use(es[i].client, session, c.wallet, es[i].now, Mint(c.last, es[i].nowMs), false);
    assert after == before + [use] ==> |after| == |before| + 1 && after[|before|] == use;
  }

  /** In every run, each session signature is right: see `UsesInv`. */
  lemma {:induction false} EveryUseIsRight(ws: seq<World>, es: seq<Event>, i: nat)
    requires Run(ws, es) && Initial(ws[0]) && i < |ws|
    ensures UsesInv(ws[i])
  {
    if i > 0 {
      EveryUseIsRight(ws, es, i - 1);
      RunKeepsKeys(ws, es, i - 1);
      assert StepAt(ws, es, i - 1);
      StepKeepsUses(ws[i - 1], es[i - 1]);
    }
  }

  /** Once a session left the slot, nobody signs with its key again, whichever
      clients still share the slot and however late their answers come. */
  lemma {:induction false} NobodySignsAfterTheEnd(ws: seq<World>, es: seq<Event>, key: Key, i: nat, j: nat, k: nat)
    requires Run(ws, es) && Initial(ws[0]) && i <= j <= k < |ws|
    requires Holds(ws[i].slot, key) && !Holds(ws[j].slot, key)
    ensures ws[j].uses <= ws[k].uses
    ensures forall m | |ws[j].uses| <= m < |ws[k].uses| :: ws[k].uses[m].session.key != key
    decreases k
  {
    if j < k {
      NobodySignsAfterTheEnd(ws, es, key, i, j, k - 1);
      KeyNeverReturns(ws, es, key, i, j, k - 1);
      assert StepAt(ws, es, k - 1);
      NewUsesAreOfTheSlot(ws[k - 1], es[k - 1]);
    }
  }

  // ----- logouts -----

  /** A logout is signed with whatever session the slot holds. It keeps the rule for
      requests exactly when the client could have signed a request with it. */
  lemma LogoutKeepsTheRuleExactlyWhen(w: World, e: Event)
    requires Enabled(w, e) && e.BeginRevoke?
    ensures |Do(w, e).uses| == |w.uses| + 1 <==> w.slot.Some?
    ensures w.slot.Some? ==>
      var u := Do(w, e).uses[|w.uses|];
      u.logout && (u.KeepsTheRule() <==> Active(w.slot, w.clients[e.client].wallet, e.now).Some?)
  {
  }

  /** So a session does sign for another wallet, and after its expiry: a reachable run,
      with honest echoes, in which client 1 logs out with the session that the wallet
      of client 0 granted. */
  lemma LogoutSignsForAnother(mine: string, other: string, key: Key, now: nat, ttl: nat, late: nat)
      returns (ws: seq<World>, es: seq<Event>)
    requires !EqIgnoreCase(mine, other) && MIN_SESSION_TTL < ttl <= MAX_SESSION_TTL && late >= now + ttl
    ensures Run(ws, es) && Initial(ws[0]) && forall m | 0 <= m < |es| :: HonestEcho(ws[m], es[m])
    ensures
      var w := ws[|ws| - 1];
      && |w.uses| == 1
      && var u := w.uses[0];
         && u.client == 1 && u.wallet == Some(other) && u.session.grantor == mine
         && !Fresh(u.session, u.now) && !UsedByItsGrantor(u)
  {
    hide Do, Enabled, OneGrant, TwoClients, Initial, UsedByItsGrantor, HonestEcho, Fresh;
    var w0 := TwoClients(mine, other);
    TwoClientsStart(mine, other);
    ThenLogsOut(mine, other, key, now + ttl, late);
    es := [BeginGrant(0, ttl, now, key), Granted(0, Some(mine)), BeginRevoke(1, 0, late)];
    GrantReaches(mine, other, mine, key, now, ttl);
    var w1 := Do(w0, es[0]);
    var w2 := OneGrant(mine, other, mine, key, now + ttl);
    ws := [w0, w1, w2, Do(w2, es[2])];
    assert StepAt(ws, es, 0) && StepAt(ws, es, 1) && StepAt(ws, es, 2);
  }

  /** Two idle clients with wallets of their own. */
  function TwoClients(mine: string, other: string): World {
    World(None, map[0 := Client(Some(mine), 0, Idle), 1 := Client(Some(other), 0, Idle)], {}, {}, [])
  }

  lemma TwoClientsStart(mine: string, other: string)
    ensures Initial(TwoClients(mine, other))
  {
  }

  lemma ThenLogsOut(mine: string, other: string, key: Key, expiresAt: nat, late: nat)
    requires !EqIgnoreCase(mine, other) && late >= expiresAt
    ensures
      var w := OneGrant(mine, other, mine, key, expiresAt);
      var e := BeginRevoke(1, 0, late);
      && Enabled(w, e) && HonestEcho(w, e) && |Do(w, e).uses| == 1
      && var u := Do(w, e).uses[0];
         && u.client == 1 && u.wallet == Some(other) && u.session.grantor == mine
         && !Fresh(u.session, u.now) && !UsedByItsGrantor(u)
  {
  }

  /** The same after the first wallet was granted a session that the server echoed
      with `echo`. */
  function OneGrant(mine: string, other: string, echo: string, key: Key, expiresAt: nat): World {
    TwoClients(mine, other).(slot := Some(Session(key, echo, expiresAt, mine)), generated := {key}, held := {key})
  }

  lemma GrantReaches(mine: string, other: string, echo: string, key: Key, now: nat, ttl: nat)
    requires MIN_SESSION_TTL < ttl <= MAX_SESSION_TTL
    ensures
      var w0 := TwoClients(mine, other);
      var begin, granted := BeginGrant(0, ttl, now, key), Granted(0, Some(echo));
      && Enabled(w0, begin) && Enabled(Do(w0, begin), granted)
      && Do(Do(w0, begin), granted) == OneGrant(mine, other, echo, key, now + ttl)
      && HonestEcho(w0, begin) && (HonestEcho(Do(w0, begin), granted) <==> EqIgnoreCase(echo, mine))
  {
    var w0 := TwoClients(mine, other);
    var w1 := Do(w0, BeginGrant(0, ttl, now, key));
    assert w1.clients[0] == Client(Some(mine), 0, Granting(key, now + ttl, mine));
    assert w1.clients[0 := Client(Some(mine), 0, Idle)] == w0.clients;
  }

  // ----- how often a call sends -----

  /** The requests client `id` signs among events `i` to `j`. */
  function Sends(es: seq<Event>, id: ClientId, i: nat, j: nat): nat
    requires i <= j <= |es|
    decreases j
  {
    if i == j then 0 else Sends(es, id, i, j - 1) + if es[j - 1].SignRequest? && es[j - 1].client == id then 1 else 0
  }

  /** How many more requests a client may sign before it is idle. */
  function Left(pc: Pc): nat {
    match pc
    case Preparing(_, retriesLeft) => retriesLeft + 1
    case InFlight(_, retriesLeft, _) => retriesLeft
    case _ => 0
  }

  lemma StepSpends(w: World, e: Event, id: ClientId)
    requires Enabled(w, e) && id in w.clients && !(e.BeginSend? && e.client == id)
    ensures id in Do(w, e).clients
    ensures Left(Do(w, e).clients[id].pc) + (if e.SignRequest? && e.client == id then 1 else 0) <= Left(w.clients[id].pc)
  {
    hide Active, GrantedTo, Mint, ClearKey, DiscardExpired, Answer.IsReplayRejection, Answer.IsRejectedSession;
  }

  /** From the start of a call to the next call of that client, it signs at most three
      requests, however the clients and the answers interleave. */
  lemma {:induction false} CallSendsAtMostThree(ws: seq<World>, es: seq<Event>, id: ClientId, i: nat, j: nat)
    requires Run(ws, es) && i < j < |ws| && es[i].BeginSend? && es[i].client == id
    requires forall k | i < k < j :: !(es[k].BeginSend? && es[k].client == id)
    ensures id in ws[j].clients && Sends(es, id, i, j) + Left(ws[j].clients[id].pc) <= 3
    decreases j
  {
    hide Left;
    assert StepAt(ws, es, j - 1);
    if i + 1 == j {
      assert Left(ws[j].clients[id].pc) == 3 by {
        BeginsWithThree(ws[i], es[i]);
      }
      assert Sends(es, id, i, j) == 0;
    } else {
      hide Do, Enabled;
      CallSendsAtMostThree(ws, es, id, i, j - 1);
      StepSpends(ws[j - 1], es[j - 1], id);
    }
  }

  lemma BeginsWithThree(w: World, e: Event)
    requires Enabled(w, e) && e.BeginSend?
    ensures e.client in Do(w, e).clients && Left(Do(w, e).clients[e.client].pc) == 3
  {
  }

  // ----- who granted the session -----

  /** The server answered the grant with the commitment of the wallet that signed it. */
  predicate HonestEcho(w: World, e: Event) {
    e.Granted? && e.echo.Some? && Enabled(w, e) ==> EqIgnoreCase(e.echo.value, w.clients[e.client].pc.grantor)
  }

  predicate GrantedByItsSigner(session: Session) {
    EqIgnoreCase(session.signer, session.grantor)
  }

  predicate UsedByItsGrantor(u: Use) {
    u.wallet.Some? && EqIgnoreCase(u.session.grantor, u.wallet.value)
  }

  /** While the server echoes honestly, every request signature is by a session
      that the signing client's own wallet granted. */
  lemma {:induction false} HonestEchoesBindTheGrantor(ws: seq<World>, es: seq<Event>, i: nat)
    requires Run(ws, es) && Initial(ws[0]) && i < |ws|
    requires forall m | 0 <= m < i :: HonestEcho(ws[m], es[m])
    ensures ws[i].slot.Some? ==> GrantedByItsSigner(ws[i].slot.value)
    ensures forall k | 0 <= k < |ws[i].uses| :: GrantedByItsSigner(ws[i].uses[k].session)
    ensures forall k | 0 <= k < |ws[i].uses| && !ws[i].uses[k].logout :: UsedByItsGrantor(ws[i].uses[k])
  {
    EveryUseIsRight(ws, es, i);
    if i > 0 {
      HonestEchoesBindTheGrantor(ws, es, i - 1);
      assert StepAt(ws, es, i - 1) && HonestEcho(ws[i - 1], es[i - 1]);
      NewUsesAreOfTheSlot(ws[i - 1], es[i - 1]);
      SlotComesFromGrants(ws[i - 1], es[i - 1]);
    }
  }

  lemma SlotComesFromGrants(w: World, e: Event)
    requires Enabled(w, e) && HonestEcho(w, e)
    requires w.slot.Some? ==> GrantedByItsSigner(w.slot.value)
    ensures Do(w, e).slot.Some? ==> GrantedByItsSigner(Do(w, e).slot.value)
  {
  }

  /** And only while it does: after a false echo, any client whose wallet the
      echo names signs its next request with a session that wallet never granted. */
  lemma FalseEchoSignsForAnother(w: World, e: Event, other: ClientId, now: nat, nowMs: I64)
    requires Enabled(w, e) && !HonestEcho(w, e)
    requires other in w.clients && other != e.client && w.clients[other].pc.Idle?
    requires w.clients[other].wallet.Some? && EqIgnoreCase(w.clients[other].wallet.value, e.echo.value)
    requires now + SESSION_EXPIRY_MARGIN_SECS < w.clients[e.client].pc.expiresAt
    ensures
      var w1 := Do(w, e);
      && Enabled(w1, BeginSend(other, SessionMode, now))
      && var w2 := Do(w1, BeginSend(other, SessionMode, now));
      && Enabled(w2, SignRequest(other, nowMs, now))
      && var w3 := Do(w2, SignRequest(other, nowMs, now));
         && |w3.uses| == |w.uses| + 1
         && var u := w3.uses[|w.uses|];
            u.client == other && !u.logout && !UsedByItsGrantor(u)
  {
  }

  /** Such a world is reached: client 1 signs a request with a session that only the
      wallet of client 0 granted, after one false echo. */
  lemma FalseEchoIsReachable(mine: string, other: string, key: Key, now: nat, ttl: nat)
      returns (ws: seq<World>, es: seq<Event>)
    requires !EqIgnoreCase(mine, other) && MIN_SESSION_TTL < ttl <= MAX_SESSION_TTL
    ensures Run(ws, es) && Initial(ws[0])
    ensures
      var w := ws[|ws| - 1];
      |w.uses| == 1 && w.uses[0].client == 1 && !w.uses[0].logout && w.uses[0].session.grantor == mine && !UsedByItsGrantor(w.uses[0])
  {
    hide Do, Enabled, OneGrant, TwoClients, Initial, UsedByItsGrantor;
    var w0 := TwoClients(mine, other);
    TwoClientsStart(mine, other);
    es := [BeginGrant(0, ttl, now, key), Granted(0, Some(other)), BeginSend(1, SessionMode, now), SignRequest(1, 0, now)];
    GrantReaches(mine, other, other, key, now, ttl);
    var w1 := Do(w0, es[0]);
    var w2 := OneGrant(mine, other, other, key, now + ttl);
    ThenSigns(mine, other, key, now, now + ttl);
    var w3 := Do(w2, es[2]);
    ws := [w0, w1, w2, w3, Do(w3, es[3])];
    assert StepAt(ws, es, 0) && StepAt(ws, es, 1) && StepAt(ws, es, 2) && StepAt(ws, es, 3);
  }

  lemma ThenSigns(mine: string, other: string, key: Key, now: nat, expiresAt: nat)
    requires !EqIgnoreCase(mine, other) && now + SESSION_EXPIRY_MARGIN_SECS < expiresAt
    ensures
      var w := OneGrant(mine, other, other, key, expiresAt);
      var begin, sign := BeginSend(1, SessionMode, now), SignRequest(1, 0, now);
      && Enabled(w, begin) && Enabled(Do(w, begin), sign)
      && var after := Do(Do(w, begin), sign);
         && |after.uses| == 1
         && var u := after.uses[0];
            u.client == 1 && !u.logout && u.session.grantor == mine && !UsedByItsGrantor(u)
  {
  }
}
