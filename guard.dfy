/** The permission guards: a private-chat test and the administrator and
    super-user checks, which answer with a denial message when they fail. */
module Guard {
  import opened Wrappers
  import opened Types
  import Store

  const NotEnoughRights: string := "⛔ Недостаточно прав."
  const SuperOnly: string := "⛔ Только суперпользователь может это сделать."

  /** A guard either lets the update through or denies it with a reply. */
  datatype Verdict = Pass | Deny(reply: string)

  /** `ctx.chat?.type === 'private'`: a missing chat, a group, a supergroup
      and a channel are all refused. */
  predicate OnlyPrivate(chatType: Option<string>): (ok: bool)
    ensures ok <==> chatType.Some? && chatType.value == "private"
    ensures chatType in {None, Some("group"), Some("supergroup"), Some("channel")} ==> !ok
  {
    chatType == Some("private")
  }

  /** JavaScript truthiness of an optional numeric id: absent and 0 are falsy. */
  predicate TruthyId(id: Option<int>) {
    id.Some? && id.value != 0
  }

  /** `ensureAdmin`: passes exactly for a present, non-zero id that the store
      counts as administrator; otherwise denies with the rights message. */
  function EnsureAdmin(fromId: Option<int>, d: ConfigData): (v: Verdict)
    ensures v.Pass? <==> fromId.Some? && fromId.value != 0
                         && (fromId.value in d.superUserIds || fromId.value in d.adminUserIds)
    ensures v.Deny? ==> v.reply == NotEnoughRights
  {
    if !TruthyId(fromId) || !Store.IsAdminIn(d, fromId.value) then Deny(NotEnoughRights) else Pass
  }

  /** `ensureSuper`: passes exactly for a present, non-zero id listed as super
      user; otherwise denies with the super-user message. */
  function EnsureSuper(fromId: Option<int>, d: ConfigData): (v: Verdict)
    ensures v.Pass? <==> fromId.Some? && fromId.value != 0 && fromId.value in d.superUserIds
    ensures v.Deny? ==> v.reply == SuperOnly
  {
    if !TruthyId(fromId) || fromId.value !in d.superUserIds then Deny(SuperOnly) else Pass
  }

  /** A user who passes the super-user guard passes the administrator guard. */
  lemma SuperPassesAdmin(fromId: Option<int>, d: ConfigData)
    requires EnsureSuper(fromId, d).Pass?
    ensures EnsureAdmin(fromId, d).Pass?
  {
  }

  /** The id 0 and a missing sender are denied by both guards, whatever the
      store holds. */
  lemma FalsyIdDenied(d: ConfigData)
    ensures EnsureAdmin(None, d) == Deny(NotEnoughRights) && EnsureSuper(None, d) == Deny(SuperOnly)
    ensures EnsureAdmin(Some(0), d) == Deny(NotEnoughRights) && EnsureSuper(Some(0), d) == Deny(SuperOnly)
  {
  }
}
