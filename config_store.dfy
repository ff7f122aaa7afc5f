/** The in-memory configuration store: one document holding the super-user
    and administrator id lists, the welcome text, the ordered buttons, the
    canned responses and the chapter parent links. Loading from and saving to
    the backing file are not part of this model. */
module Store {
  import opened Wrappers
  import opened Types
  import Buttons
  import Seqs

  // ---------------------------------------------------------------------------
  // Partial replacement: { ...data, ...partial }
  // ---------------------------------------------------------------------------

  /** `Partial<ConfigData>`: each field is either given (`Some`) or absent. */
  datatype PartialConfig = PartialConfig(
    superUserIds: Option<seq<int>>,
    adminUserIds: Option<seq<int>>,
    texts: Option<Texts>,
    buttons: Option<seq<Button>>,
    responses: Option<map<string, string>>,
    parents: Option<map<string, string>>)

  const NoChanges: PartialConfig := PartialConfig(None, None, None, None, None, None)

  /** The object spread `{ ...d, ...p }`: the fields `p` gives, the rest of `d`. */
  function Merge(d: ConfigData, p: PartialConfig): ConfigData {
    ConfigData(
      p.superUserIds.GetOr(d.superUserIds),
      p.adminUserIds.GetOr(d.adminUserIds),
      p.texts.GetOr(d.texts),
      p.buttons.GetOr(d.buttons),
      p.responses.GetOr(d.responses),
      p.parents.GetOr(d.parents))
  }

  /** Two spreads in a row are one spread of the later fields over the earlier. */
  function Combine(p: PartialConfig, q: PartialConfig): PartialConfig {
    PartialConfig(
      if q.superUserIds.Some? then q.superUserIds else p.superUserIds,
      if q.adminUserIds.Some? then q.adminUserIds else p.adminUserIds,
      if q.texts.Some? then q.texts else p.texts,
      if q.buttons.Some? then q.buttons else p.buttons,
      if q.responses.Some? then q.responses else p.responses,
      if q.parents.Some? then q.parents else p.parents)
  }

  /** A field absent from the partial document keeps its value; a given field
      takes the given value. */
  lemma MergeReplacesExactlyGiven(d: ConfigData, p: PartialConfig)
    ensures var r := Merge(d, p);
      && (p.superUserIds.None? ==> r.superUserIds == d.superUserIds)
      && (p.superUserIds.Some? ==> r.superUserIds == p.superUserIds.value)
      && (p.adminUserIds.None? ==> r.adminUserIds == d.adminUserIds)
      && (p.adminUserIds.Some? ==> r.adminUserIds == p.adminUserIds.value)
      && (p.texts.None? ==> r.texts == d.texts)
      && (p.texts.Some? ==> r.texts == p.texts.value)
      && (p.buttons.None? ==> r.buttons == d.buttons)
      && (p.buttons.Some? ==> r.buttons == p.buttons.value)
      && (p.responses.None? ==> r.responses == d.responses)
      && (p.responses.Some? ==> r.responses == p.responses.value)
      && (p.parents.None? ==> r.parents == d.parents)
      && (p.parents.Some? ==> r.parents == p.parents.value)
  {
  }

  /** An empty partial document changes nothing. */
  lemma MergeNothing(d: ConfigData)
    ensures Merge(d, NoChanges) == d
  {
  }

  /** Successive partial replacements compose. */
  lemma MergeCompose(d: ConfigData, p: PartialConfig, q: PartialConfig)
    ensures Merge(Merge(d, p), q) == Merge(d, Combine(p, q))
  {
  }

  // ---------------------------------------------------------------------------
  // The administrator lists
  // ---------------------------------------------------------------------------

  /** The administrator list after `addAdmin(u)`: `u` is appended only when it
      is neither listed already nor a super user. */
  function AdminsAfterAdd(admins: seq<int>, supers: seq<int>, u: int): (r: seq<int>)
    ensures u in admins || u in supers ==> r == admins
    ensures u !in admins && u !in supers ==> r == admins + [u]
  {
    if u !in admins && u !in supers then admins + [u] else admins
  }

  /** Adding is idempotent. */
  lemma AddAdminIdempotent(admins: seq<int>, supers: seq<int>, u: int)
    ensures AdminsAfterAdd(AdminsAfterAdd(admins, supers, u), supers, u)
         == AdminsAfterAdd(admins, supers, u)
  {
    var once := AdminsAfterAdd(admins, supers, u);
    assert u in once || u in supers;
  }

  /** Adding never puts a super user into the administrator list: if none was
      there before, none is there after. */
  lemma AddAdminNoSuper(admins: seq<int>, supers: seq<int>, u: int)
    requires forall x :: x in admins ==> x !in supers
    ensures forall x :: x in AdminsAfterAdd(admins, supers, u) ==> x !in supers
  {
  }

  /** The administrator list after `removeAdmin(u)`: every `u` dropped. */
  function AdminsAfterRemove(admins: seq<int>, u: int): seq<int> {
    Seqs.Filter(admins, (x: int) => x != u)
  }

  /** Removal drops exactly `u`: no occurrence is left, every other id stays. */
  lemma RemoveAdminMembers(admins: seq<int>, u: int, x: int)
    ensures x in AdminsAfterRemove(admins, u) <==> x in admins && x != u
  {
    Seqs.FilterMember(admins, (y: int) => y != u, x);
  }

  /** Removal keeps the other ids in their order. */
  lemma RemoveAdminConcat(a: seq<int>, b: seq<int>, u: int)
    ensures AdminsAfterRemove(a + b, u) == AdminsAfterRemove(a, u) + AdminsAfterRemove(b, u)
  {
    Seqs.FilterConcat(a, b, (y: int) => y != u);
  }

  /** Removing an id that is not listed changes nothing. */
  lemma RemoveAbsentAdmin(admins: seq<int>, u: int)
    requires u !in admins
    ensures AdminsAfterRemove(admins, u) == admins
  {
    Seqs.FilterKeepsAll(admins, (y: int) => y != u);
  }

  /** A user is an administrator when listed as super user or as administrator. */
  predicate IsAdminIn(d: ConfigData, u: int) {
    u in d.superUserIds || u in d.adminUserIds
  }

  // ---------------------------------------------------------------------------
  // The store object
  // ---------------------------------------------------------------------------

  class ConfigStore {
    /** The in-memory document (`private data: ConfigData`). */
    var data: ConfigData

    /** A new store holds the default document: no super users, no
        administrators, no buttons, no responses. */
    constructor()
      ensures data == DefaultConfig
      ensures data.superUserIds == [] && data.adminUserIds == []
      ensures data.buttons == [] && data.responses == map[]
    {
      data := DefaultConfig;
    }

    /** `setAll(next)`: the whole document replaced. */
    method SetAll(next: ConfigData)
      modifies this
      ensures data == next
    {
      data := next;
    }

    /** `set(partial)`: the fields `partial` gives replaced, the others kept. */
    method Set(partial: PartialConfig)
      modifies this
      ensures data == Merge(old(data), partial)
    {
      data := Merge(data, partial);
    }

    /** `get()`: the current document itself. */
    function Get(): (d: ConfigData)
      reads this
      ensures d == data
    {
      data
    }

    /** `isSuper(u)`: listed among the super users. */
    predicate IsSuper(u: int)
      reads this
      ensures IsSuper(u) <==> u in data.superUserIds
    {
      u in data.superUserIds
    }

    /** `isAdmin(u)`: a super user, or listed among the administrators; so
        every super user is an administrator. */
    predicate IsAdmin(u: int)
      reads this
      ensures IsAdmin(u) <==> IsAdminIn(data, u)
      ensures IsSuper(u) ==> IsAdmin(u)
    {
      IsSuper(u) || u in data.adminUserIds
    }

    /** `addAdmin(u)`: idempotent; only the administrator list can change. */
    method AddAdmin(u: int)
      modifies this
      ensures data == old(data).(adminUserIds := AdminsAfterAdd(old(data.adminUserIds), old(data.superUserIds), u))
      ensures IsAdmin(u)
    {
      if u !in data.adminUserIds && !IsSuper(u) {
        data := data.(adminUserIds := data.adminUserIds + [u]);
      }
    }

    /** `removeAdmin(u)`: every occurrence of `u` dropped from the administrator
        list; the super-user list is untouched. */
    method RemoveAdmin(u: int)
      modifies this
      ensures data == old(data).(adminUserIds := AdminsAfterRemove(old(data.adminUserIds), u))
      ensures IsSuper(u) == old(IsSuper(u))
    {
      data := data.(adminUserIds := AdminsAfterRemove(data.adminUserIds, u));
    }

    /** `addButton(btn)`: insert-or-replace by id. */
    method AddButton(btn: Button)
      modifies this
      ensures data == old(data).(buttons := Buttons.Upsert(old(data.buttons), btn))
      ensures Buttons.UniqueIds(old(data.buttons)) ==> Buttons.UniqueIds(data.buttons)
    {
      if Buttons.UniqueIds(data.buttons) {
        Buttons.UpsertKeepsUnique(data.buttons, btn);
      }
      data := data.(buttons := Buttons.Upsert(data.buttons, btn));
    }

    /** `removeButton(id)`: every button with that id filtered out. */
    method RemoveButton(id: string)
      modifies this
      ensures data == old(data).(buttons := Buttons.RemoveById(old(data.buttons), id))
      ensures id !in Buttons.Ids(data.buttons)
    {
      data := data.(buttons := Buttons.RemoveById(data.buttons, id));
      forall b | b in data.buttons ensures b.id != id {
        Buttons.RemoveByIdMembers(old(data.buttons), id, b);
      }
    }
  }
}
