/**
Sessions and the slot that holds one (crates/client/src/client.rs): a slot is
shared by reference between clients and each of its operations is one lock
section. The functions say what a lock section does to the slot's content; the
class is the slot itself.
*/
module SessionSlot {
  import opened Wrappers
  import opened Ascii

  const SESSION_EXPIRY_MARGIN_SECS: nat := 30

  /** A session public key. */
  type Key = nat

  /** `signer` is the commitment the server answered the grant with; `grantor`
      records the commitment of the wallet that signed the grant. */
  datatype Session = Session(key: Key, signer: string, expiresAt: nat, grantor: string)

  type Slot = Option<Session>

  predicate Holds(slot: Slot, key: Key) {
    slot.Some? && slot.value.key == key
  }

  /** Registered and more than the margin away from its expiry. */
  predicate Fresh(session: Session, now: nat) {
    now + SESSION_EXPIRY_MARGIN_SECS < session.expiresAt
  }

  /** `with_active_session`: the session a client of `wallet` may sign with. */
  function Active(slot: Slot, wallet: Option<string>, now: nat): Slot {
    if && slot.Some?
       && wallet.Some?
       && Fresh(slot.value, now)
       && EqIgnoreCase(slot.value.signer, wallet.value)
    then slot
    else None
  }

  /** `clear_key`. */
  function ClearKey(slot: Slot, key: Key): Slot {
    if Holds(slot, key) then None else slot
  }

  /** `discard_expired_session`. */
  function DiscardExpired(slot: Slot, now: nat): Slot {
    if slot.Some? && !Fresh(slot.value, now) then None else slot
  }

  /** The key `revoke_all_sessions` captures before it sends. */
  function GrantedTo(slot: Slot, wallet: string): Option<Key> {
    if slot.Some? && EqIgnoreCase(slot.value.signer, wallet) then Some(slot.value.key) else None
  }

  class SharedSlot {
    var session: Slot

    constructor ()
      ensures session == None
    {
      session := None;
    }

    /** The session, if it is registered and not about to expire. */
    method Info(now: nat) returns (r: Slot)
      ensures r.Some? <==> session.Some? && Fresh(session.value, now)
      ensures r.Some? ==> r == session
    {
      match session {
        case Some(s) =>
          if Fresh(s, now) {
            return Some(s);
          }
        case None =>
      }
      return None;
    }

    method ClearIf(ended: Session -> bool)
      modifies this
      ensures session == if old(session).Some? && ended(old(session).value) then None else old(session)
    {
      match session {
        case Some(s) =>
          if ended(s) {
            session := None;
          }
        case None =>
      }
    }

    method Clear(key: Key)
      modifies this
      ensures session == ClearKey(old(session), key)
    {
      ClearIf((s: Session) => s.key == key);
    }

    method Discard(now: nat)
      modifies this
      ensures session == DiscardExpired(old(session), now)
    {
      ClearIf((s: Session) => now + SESSION_EXPIRY_MARGIN_SECS >= s.expiresAt);
    }
  }
}
