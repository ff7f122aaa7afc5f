/** The module-level store of administrator dialog sessions and its three
    helpers. Reading a missing session yields an idle one without storing it. */
module Fsm {
  import opened Wrappers
  import opened Types
  import Session

  class AdminSessions {
    /** `adminSessions`, created with the factory `() => ({ mode: 'IDLE' })`. */
    const store: Session.MemorySession<AdminSession>

    constructor()
      ensures fresh(store)
      ensures store.entries == map[] && store.factory() == IdleSession
    {
      store := new Session.MemorySession(() => IdleSession);
    }

    /** `getAdminSession(uid)`: the stored session, or an idle one that is not
        stored. */
    function GetAdminSession(uid: int): (s: AdminSession)
      reads store
      ensures uid in store.entries ==> s == store.entries[uid]
      ensures uid !in store.entries ==> s == IdleSession
    {
      store.Get(uid).GetOr(IdleSession)
    }

    /** `setAdminSession(uid, s)`: a following `getAdminSession(uid)` yields `s`. */
    method SetAdminSession(uid: int, s: AdminSession)
      modifies store
      ensures store.entries == old(store.entries)[uid := s]
      ensures GetAdminSession(uid) == s
      ensures forall other :: other != uid ==> GetAdminSession(other) == old(GetAdminSession(other))
    {
      store.Set(uid, s);
    }

    /** `resetAdminSession(uid)`: the session becomes idle with no working
        fields; every other user's session is untouched. */
    method ResetAdminSession(uid: int)
      modifies store
      ensures store.entries == old(store.entries)[uid := IdleSession]
      ensures GetAdminSession(uid) == IdleSession
      ensures GetAdminSession(uid).mode == Idle
      ensures GetAdminSession(uid).workingButtonId.None? && GetAdminSession(uid).workingKey.None?
      ensures forall other :: other != uid ==> GetAdminSession(other) == old(GetAdminSession(other))
    {
      store.Reset(uid, Some(IdleSession));
    }
  }
}
