/** The bot's data: menu buttons, the configuration document the store keeps,
    and the per-user state of the administrator dialog. */
module Types {
  import opened Wrappers

  /** The item-card fields an imported product button carries beside the
      common ones (absent on hand-made buttons). */
  datatype ItemInfo = ItemInfo(memory: Option<string>, price: Option<string>, priceFrom: bool)

  const NoItemInfo: ItemInfo := ItemInfo(None, None, false)

  /** A menu entry, shown in the menu section `chapter`: a callback button
      sends `payload` back to the bot, a url button opens `url`. `caption` is
      the text on the button (the source's `label`, a reserved word here). */
  datatype Button =
    | CallbackButton(id: string, caption: string, chapter: string, payload: string, item: ItemInfo)
    | UrlButton(id: string, caption: string, chapter: string, url: string, item: ItemInfo)

  datatype Texts = Texts(welcome: string)

  /** The configuration document. `parents` is the chapter parent link map the
      importer maintains (absent from a fresh document, modelled as empty). */
  datatype ConfigData = ConfigData(
    superUserIds: seq<int>,
    adminUserIds: seq<int>,
    texts: Texts,
    buttons: seq<Button>,
    responses: map<string, string>,
    parents: map<string, string>)

  const DefaultWelcome: string := "Привет! Я помогу с выбором товаров и связью с менеджером"

  /** The document a new store starts with. */
  const DefaultConfig: ConfigData :=
    ConfigData([], [], Texts(DefaultWelcome), [], map[], map[])

  /** The reserved root chapter. */
  const MainChapter: string := "MAIN"

  /** The dialog states of the administrator panel. */
  datatype AdminMode =
    | Idle
    | AddBtnAskAll
    | DelBtnAskId
    | EditBtnAskId
    | EditBtnAskKey
    | EditBtnAskValue
    | SetWelcomeAskText
    | SetResponseAskBoth

  /** One administrator's dialog state; the working fields carry the button
      and the key being edited across the two-step edit. */
  datatype AdminSession = AdminSession(
    mode: AdminMode,
    workingButtonId: Option<string>,
    workingKey: Option<string>)

  /** `{ mode: 'IDLE' }`. */
  const IdleSession: AdminSession := AdminSession(Idle, None, None)
}
