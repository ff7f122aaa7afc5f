/** The inline keyboards: the menu of one chapter built from the configured
    buttons, and the fixed administrator menu. A keyboard is a list of rows,
    each a list of keys. Two builders exist: the current one, which offers the
    administrator panel only in the main chapter, and the older one kept in the
    bot's entry file, which offers it in every chapter. */
module Keyboards {
  import opened Wrappers
  import opened Types
  import Seqs
  import Store
  import Guard

  /** A key: a callback key sends `data` back, a url key opens `url`. */
  datatype Key = CallbackKey(text: string, data: string) | UrlKey(text: string, url: string)

  /** The facts about the viewer the builders look at: the chat type and the
      sender id, either of which may be missing. */
  datatype Viewer = Viewer(chatType: Option<string>, fromId: Option<int>)

  const BackKey: Key := CallbackKey("⬅️ Назад в главное меню", "MAIN")
  const AdminKey: Key := CallbackKey("⚙️ Admin Panel", "ADMIN")

  /** The key a button renders as. */
  function RenderButton(b: Button): (k: Key)
    ensures b.CallbackButton? ==> k == CallbackKey(b.caption, b.payload)
    ensures b.UrlButton? ==> k == UrlKey(b.caption, b.url)
    ensures k.text == b.caption
  {
    match b
    case CallbackButton(_, caption, _, payload, _) => CallbackKey(caption, payload)
    case UrlButton(_, caption, _, url, _) => UrlKey(caption, url)
  }

  /** `buttons.filter(b => b.chapter === chapter)`. */
  function InChapter(bs: seq<Button>, chapter: string): seq<Button> {
    Seqs.Filter(bs, (b: Button) => b.chapter == chapter)
  }

  /** The buttons shown in a chapter are exactly those whose chapter it is. */
  lemma InChapterMembers(bs: seq<Button>, chapter: string, b: Button)
    ensures b in InChapter(bs, chapter) <==> b in bs && b.chapter == chapter
  {
    Seqs.FilterMember(bs, (x: Button) => x.chapter == chapter, b);
  }

  /** The shown buttons keep the configured order. */
  lemma InChapterConcat(a: seq<Button>, b: seq<Button>, chapter: string)
    ensures InChapter(a + b, chapter) == InChapter(a, chapter) + InChapter(b, chapter)
  {
    Seqs.FilterConcat(a, b, (x: Button) => x.chapter == chapter);
  }

  /** One row per shown button, holding that button's key. */
  function ContentRows(bs: seq<Button>, chapter: string): (rows: seq<seq<Key>>)
    ensures |rows| == |InChapter(bs, chapter)|
    ensures forall k :: 0 <= k < |rows| ==> rows[k] == [RenderButton(InChapter(bs, chapter)[k])]
  {
    var shown := InChapter(bs, chapter);
    seq(|shown|, k requires 0 <= k < |shown| => [RenderButton(shown[k])])
  }

  /** The current builder's condition for the administrator row: the main
      chapter, a viewer in a private chat with a truthy id the store counts as
      administrator. */
  predicate ShowsAdminRow(ctx: Option<Viewer>, chapter: string, d: ConfigData): (shown: bool)
    ensures shown <==> chapter == MainChapter && ctx.Some? && Guard.OnlyPrivate(ctx.value.chatType)
                       && Guard.EnsureAdmin(ctx.value.fromId, d).Pass?
  {
    && chapter == MainChapter
    && ctx.Some?
    && ctx.value.chatType == Some("private")
    && ctx.value.fromId.Some? && ctx.value.fromId.value != 0
    && Store.IsAdminIn(d, ctx.value.fromId.value)
  }

  /** `buildKeyboard(ctx, chapter, config)`: the chapter's buttons in order,
      then the back row outside the main chapter, or the administrator row for
      an administrator in the main chapter; never both. */
  function BuildKeyboard(ctx: Option<Viewer>, chapter: string, d: ConfigData): (rows: seq<seq<Key>>)
    ensures var n := |InChapter(d.buttons, chapter)|;
      && |rows| == n + (if chapter != MainChapter then 1 else 0) + (if ShowsAdminRow(ctx, chapter, d) then 1 else 0)
      && |rows| <= n + 1
      && rows[..n] == ContentRows(d.buttons, chapter)
      && (chapter != MainChapter ==> rows[n] == [BackKey])
      && (ShowsAdminRow(ctx, chapter, d) ==> rows[n] == [AdminKey])
  {
    var content := ContentRows(d.buttons, chapter);
    var back := if chapter != MainChapter then [[BackKey]] else [];
    var admin := if ShowsAdminRow(ctx, chapter, d) then [[AdminKey]] else [];
    assert (content + back + admin)[..|content|] == content;
    content + back + admin
  }

  /** The older builder's condition: a viewer in a private chat whose id the
      store counts as administrator, in any chapter. */
  predicate LegacyShowsAdminRow(ctx: Option<Viewer>, d: ConfigData)
    requires ctx.Some? ==> ctx.value.fromId.Some?
  {
    && ctx.Some?
    && ctx.value.chatType == Some("private")
    && Store.IsAdminIn(d, ctx.value.fromId.value)
  }

  /** The older builder: the same content and back rows, then the
      administrator row in every chapter. It reads the sender id without a
      guard, so it needs one whenever a context is given. */
  function LegacyBuildKeyboard(ctx: Option<Viewer>, chapter: string, d: ConfigData): (rows: seq<seq<Key>>)
    requires ctx.Some? ==> ctx.value.fromId.Some?
    ensures var n := |InChapter(d.buttons, chapter)|;
      && |rows| == n + (if chapter != MainChapter then 1 else 0) + (if LegacyShowsAdminRow(ctx, d) then 1 else 0)
      && rows[..n] == ContentRows(d.buttons, chapter)
      && (chapter != MainChapter ==> rows[n] == [BackKey])
      && (LegacyShowsAdminRow(ctx, d) ==> rows[|rows| - 1] == [AdminKey])
  {
    var content := ContentRows(d.buttons, chapter);
    var back := if chapter != MainChapter then [[BackKey]] else [];
    var admin := if LegacyShowsAdminRow(ctx, d) then [[AdminKey]] else [];
    assert (content + back + admin)[..|content|] == content;
    content + back + admin
  }

  /** In the main chapter the two builders agree for a viewer with a non-zero
      id. */
  lemma BuildersAgreeOnMain(ctx: Option<Viewer>, d: ConfigData)
    requires ctx.Some? ==> ctx.value.fromId.Some? && ctx.value.fromId.value != 0
    ensures LegacyBuildKeyboard(ctx, MainChapter, d) == BuildKeyboard(ctx, MainChapter, d)
  {
  }

  /** Outside the main chapter an administrator gets one row more from the
      older builder: both the back row and the panel row. */
  lemma LegacyAdminRowOutsideMain(ctx: Option<Viewer>, chapter: string, d: ConfigData)
    requires ctx.Some? && ctx.value.fromId.Some?
    requires ctx.value.chatType == Some("private") && Store.IsAdminIn(d, ctx.value.fromId.value)
    requires chapter != MainChapter
    ensures var n := |InChapter(d.buttons, chapter)|;
      var legacy := LegacyBuildKeyboard(ctx, chapter, d);
      && |legacy| == n + 2 && legacy[n] == [BackKey] && legacy[n + 1] == [AdminKey]
      && |BuildKeyboard(ctx, chapter, d)| == n + 1
  {
  }

  /** The callback data of the administrator menu, top to bottom. */
  const AdminMenuActions: seq<string> :=
    ["ADM_ADD_BTN", "ADM_EDIT_BTN", "ADM_DEL_BTN", "ADM_LIST_BTNS",
     "ADM_SET_WELCOME", "ADM_SET_RESPONSE", "ADM_BACK_TO_MAIN"]

  /** `adminMenuKeyboard()`: seven single-key callback rows, in the order of
      `AdminMenuActions`, the last leading back to the main menu. */
  function AdminMenuKeyboard(): (rows: seq<seq<Key>>)
    ensures |rows| == 7
    ensures forall k :: 0 <= k < 7 ==> |rows[k]| == 1 && rows[k][0].CallbackKey? && rows[k][0].data == AdminMenuActions[k]
    ensures rows[6] == [CallbackKey("⬅️ В главное меню", "ADM_BACK_TO_MAIN")]
  {
    [[CallbackKey("➕ Добавить кнопку", "ADM_ADD_BTN")],
     [CallbackKey("📝 Редактировать кнопку", "ADM_EDIT_BTN")],
     [CallbackKey("🗑 Удалить кнопку", "ADM_DEL_BTN")],
     [CallbackKey("📋 Список кнопок", "ADM_LIST_BTNS")],
     [CallbackKey("💬 Изменить приветствие", "ADM_SET_WELCOME")],
     [CallbackKey("💡 Изменить ответ payload", "ADM_SET_RESPONSE")],
     [CallbackKey("⬅️ В главное меню", "ADM_BACK_TO_MAIN")]]
  }
}
