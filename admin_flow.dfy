/** The administrator side of the bot's entry file: the lazily created dialog
    sessions, the handler of callback presses (the `ADMIN` panel, the `ADM_*`
    menu actions, and ordinary presses handed to the router), the handler of
    free text that drives the dialog one mode at a time, and the text
    commands. Replies are modelled as tags; three store operations the bot
    calls but the store does not define (`setWelcome`, `setResponse`,
    `renameButton`) are modelled as requests the handlers emit. */
module AdminFlow {
  import opened Wrappers
  import opened Types
  import Text
  import Seqs
  import Buttons
  import Store
  import Guard
  import Keyboards
  import Responses

  // ---------------------------------------------------------------------------
  // what the handlers emit
  // ---------------------------------------------------------------------------

  /** A call to a store operation that is not part of this model. */
  datatype StoreRequest =
    | SetWelcome(text: string)
    | SetResponse(payload: string, text: string)
    | RenameButton(id: string, caption: string)

  /** Why an edit of a button field is refused. */
  datatype EditError =
    | IdInUse            // another button already has the new id
    | TypeNotKnown       // the new type is neither callback nor url
    | PayloadNeedsCallback
    | UrlNeedsUrlButton
    | KeyNotKnown

  /** The reply a handler sends, as a tag. */
  datatype Reply =
    | Silent
    | NoRights
    | SuperOnly
    | AdminPanel
    | AskFor(mode: AdminMode)
    | AskValue(key: string)
    | ButtonList(text: string)
    | MainMenu(keyboard: seq<seq<Keyboards.Key>>)
    | Routed(outcome: Responses.Outcome)
    | NeedFiveFields
    | NeedKnownType
    | ButtonAdded(id: string)
    | ButtonRemoved(id: string)
    | ButtonNotFound
    | ButtonGone
    | EditFailed(error: EditError)
    | ButtonUpdated(id: string)
    | WelcomeUpdated
    | NeedText
    | NeedPayloadAndAnswer
    | ResponseSaved(payload: string)
    | Usage(command: string)
    | MissingParameters
    | ButtonRenamed(id: string)
    | NoUserId
    | AlreadySuper
    | CannotDemoteSuper
    | AdminAdded(uid: int)
    | AdminRemoved(uid: int)

  // ---------------------------------------------------------------------------
  // sessions
  // ---------------------------------------------------------------------------

  /** The session a user has: the stored one, or an idle one. */
  function SessionOf(sessions: map<int, AdminSession>, uid: int): AdminSession {
    if uid in sessions then sessions[uid] else IdleSession
  }

  // ---------------------------------------------------------------------------
  // the `|`-separated fields
  // ---------------------------------------------------------------------------

  /** `text.split('|').map(x => x.trim())`. */
  function Fields(text: string): (parts: seq<string>)
    ensures |parts| >= 1
    ensures forall k :: 0 <= k < |parts| ==> '|' !in parts[k]
  {
    var pieces := Text.Split(text, '|');
    var parts := Text.TrimAll(pieces);
    assert forall k :: 0 <= k < |parts| ==> '|' !in parts[k] by {
      forall k | 0 <= k < |parts| ensures '|' !in parts[k] {
        if '|' in parts[k] {
          Text.TrimMember(pieces[k], '|');
        }
      }
    }
    parts
  }

  /** A destructured field: missing fields are `undefined`, which is falsy
      like the empty string. */
  function FieldAt(parts: seq<string>, k: nat): string {
    if k < |parts| then parts[k] else ""
  }

  /** A field as an administrator would type it: non-empty, without the
      separator and without white space at its ends. */
  predicate Clean(f: string) {
    f != "" && '|' !in f && !Text.IsSpace(f[0]) && !Text.IsSpace(f[|f| - 1])
  }

  /** Clean fields joined by `|` split back into themselves. */
  lemma FieldsOfJoin(fs: seq<string>)
    requires fs != [] && forall k :: 0 <= k < |fs| ==> Clean(fs[k])
    ensures Fields(Text.Join(fs, "|")) == fs
  {
    Text.SplitJoin(fs, '|');
    var parts := Fields(Text.Join(fs, "|"));
    forall k | 0 <= k < |fs| ensures parts[k] == fs[k] {
      Text.TrimOfTrimmed(fs[k]);
    }
  }

  /** The two button kinds, as typed in the `type` field. */
  datatype Kind = CallbackKind | UrlKind

  /** The type words, in lower case. */
  const KindWords: map<string, Kind> := map["callback" := CallbackKind, "url" := UrlKind]

  /** `typeRaw.toLowerCase()` compared with `callback` and `url`. */
  function KindOf(raw: string): (r: Option<Kind>)
    ensures r.Some? <==> Text.Lower(raw) in KindWords
    ensures r.Some? ==> r.value == KindWords[Text.Lower(raw)]
  {
    var low := Text.Lower(raw);
    if low in KindWords then Some(KindWords[low]) else None
  }

  /** The type word is recognised whatever its letter case: upper-casing or
      lower-casing the typed word never changes its kind. */
  lemma KindWordsAnyCase(raw: string)
    ensures KindOf(Text.Upper(raw)) == KindOf(raw)
    ensures KindOf(Text.Lower(raw)) == KindOf(raw)
  {
    assert Text.Lower(Text.Upper(raw)) == Text.Lower(raw);
    assert Text.Lower(Text.Lower(raw)) == Text.Lower(raw);
  }

  /** The spellings the prompt suggests, a mixed-case one, and a word that
      is not a type. */
  lemma KindWordSpellings()
    ensures KindOf("callback") == Some(CallbackKind) && KindOf("CallBack") == Some(CallbackKind)
    ensures KindOf("url") == Some(UrlKind) && KindOf("URL") == Some(UrlKind)
    ensures KindOf("link") == None
  {
    assert Text.Lower("callback") == "callback";
    assert Text.Lower("CallBack") == "callback";
    assert Text.Lower("url") == "url";
    assert Text.Lower("URL") == "url";
    assert Text.Lower("link")[0] == 'l';
  }

  /** The button of a kind. */
  function MakeButton(kind: Kind, id: string, caption: string, chapter: string, value: string): Button {
    match kind
    case CallbackKind => CallbackButton(id, caption, chapter, value, NoItemInfo)
    case UrlKind => UrlButton(id, caption, chapter, value, NoItemInfo)
  }

  // ---------------------------------------------------------------------------
  // the add-button line: id | label | type | chapter | payload_or_url
  // ---------------------------------------------------------------------------

  datatype AddLine = AddOk(button: Button) | MissingField | UnknownKind

  /** The five fields the destructuring reads are all there and non-empty
      (a missing field is `undefined`, which is falsy like `''`). */
  predicate FiveFields(parts: seq<string>) {
    |parts| >= 5 && forall k :: 0 <= k < 5 ==> parts[k] != ""
  }

  /** The add-button line: five non-empty fields (any further ones are
      ignored) and a known type. */
  function ParseAddLine(text: string): (r: AddLine)
    ensures r.MissingField? <==> !FiveFields(Fields(text))
    ensures r.UnknownKind? <==> FiveFields(Fields(text)) && KindOf(Fields(text)[2]).None?
    ensures r.AddOk? ==>
      var parts := Fields(text);
      && r.button == MakeButton(KindOf(parts[2]).value, parts[0], parts[1], parts[3], parts[4])
      && r.button.id != "" && '|' !in r.button.id
  {
    var parts := Fields(text);
    if !FiveFields(parts) then MissingField
    else
      match KindOf(parts[2])
      case None => UnknownKind
      case Some(kind) => AddOk(MakeButton(kind, parts[0], parts[1], parts[3], parts[4]))
  }

  /** A line written as the prompt asks parses into that button. */
  lemma AddLineRoundTrip(id: string, caption: string, kindWord: string, chapter: string, value: string)
    requires Clean(id) && Clean(caption) && Clean(kindWord) && Clean(chapter) && Clean(value)
    requires KindOf(kindWord).Some?
    ensures ParseAddLine(Text.Join([id, caption, kindWord, chapter, value], "|"))
         == AddOk(MakeButton(KindOf(kindWord).value, id, caption, chapter, value))
  {
    var fs := [id, caption, kindWord, chapter, value];
    FieldsOfJoin(fs);
  }

  // ---------------------------------------------------------------------------
  // the response line: payload | answer
  // ---------------------------------------------------------------------------

  /** `[payload, ...rest] = text.split('|').map(trim)`, the answer being the
      rest joined by `|` and trimmed; nothing unless both are non-empty. */
  function ParseResponse(raw: string): (r: Option<(string, string)>)
    ensures r.Some? ==> r.value.0 != "" && r.value.1 != "" && '|' !in r.value.0
    ensures r.Some? ==> r.value.0 == Fields(raw)[0]
    ensures r.Some? <==> Fields(raw)[0] != "" && Text.Trim(Text.Join(Fields(raw)[1..], "|")) != ""
    ensures r.Some? ==> r.value.1 == Text.Trim(Text.Join(Fields(raw)[1..], "|"))
    ensures r.Some? ==> !Text.IsSpace(r.value.1[0]) && !Text.IsSpace(r.value.1[|r.value.1| - 1])
  {
    var parts := Fields(raw);
    var payload := parts[0];
    var answer := Text.Trim(Text.Join(parts[1..], "|"));
    if payload == "" || answer == "" then None else Some((payload, answer))
  }

  /** The pieces of `payload | answer` before trimming. */
  lemma SplitSpacedPair(payload: string, answer: string)
    requires '|' !in payload && '|' !in answer
    ensures Text.Split(payload + " | " + answer, '|') == [payload + " ", " " + answer]
  {
    assert payload + " | " + answer == (payload + " ") + ['|'] + (" " + answer);
    Text.SplitHead(payload + " ", " " + answer, '|');
    Text.SplitWithoutSep(" " + answer, '|');
  }

  /** A clean field with one space on either side trims back to itself. */
  lemma TrimSpaced(f: string)
    requires Clean(f)
    ensures Text.Trim(f + " ") == f && Text.Trim(" " + f) == f
  {
    assert "" + f + " " == f + " ";
    Text.TrimOfPadded("", f, " ");
    assert " " + f + "" == " " + f;
    Text.TrimOfPadded(" ", f, "");
    Text.TrimOfTrimmed(f);
  }

  /** The fields of `payload | answer`. */
  lemma FieldsOfSpacedPair(payload: string, answer: string)
    requires Clean(payload) && Clean(answer)
    ensures Fields(payload + " | " + answer) == [payload, answer]
  {
    SplitSpacedPair(payload, answer);
    TrimSpaced(payload);
    TrimSpaced(answer);
  }

  /** `payload | answer`, spaced as the prompt shows it, parses back into the
      payload and the answer. */
  lemma ResponseRoundTrip(payload: string, answer: string)
    requires Clean(payload) && Clean(answer)
    ensures ParseResponse(payload + " | " + answer) == Some((payload, answer))
  {
    FieldsOfSpacedPair(payload, answer);
    var parts := Fields(payload + " | " + answer);
    assert parts[1..] == [answer];
    Text.TrimOfTrimmed(answer);
  }

  /** Clean fields joined by `|` give the first as payload and the others,
      rejoined by `|`, as the answer: a `|` inside the answer is kept. */
  lemma ResponseOfFields(fs: seq<string>)
    requires |fs| >= 2 && forall k :: 0 <= k < |fs| ==> Clean(fs[k])
    ensures ParseResponse(Text.Join(fs, "|")) == Some((fs[0], Text.Join(fs[1..], "|")))
  {
    FieldsOfJoin(fs);
    JoinOfCleanIsTrimmed(fs[1..]);
    Text.TrimOfTrimmed(Text.Join(fs[1..], "|"));
  }

  /** A line without an answer stores nothing. */
  lemma ResponseNeedsAnswer(payload: string)
    requires '|' !in payload
    ensures ParseResponse(payload).None?
  {
    Text.SplitWithoutSep(payload, '|');
    assert Fields(payload)[1..] == [];
  }

  // ---------------------------------------------------------------------------
  // editing one field of a button
  // ---------------------------------------------------------------------------

  datatype Edit = Edited(button: Button) | Rejected(error: EditError)

  /** The edit of field `key` of the button at `idx` to `value`. Every check
      comes before any write, so a refused edit changes nothing. A missing
      key is an unknown one. */
  function EditButton(bs: seq<Button>, idx: nat, key: Option<string>, value: string): (e: Edit)
    requires idx < |bs|
    ensures e.Edited? && key != Some("id") ==> e.button.id == bs[idx].id
    ensures e.Edited? && key == Some("id") ==> e.button.id == value && forall j :: 0 <= j < |bs| && j != idx ==> bs[j].id != value
    ensures e.Edited? && key != Some("label") ==> e.button.caption == bs[idx].caption
    ensures e.Edited? && key != Some("chapter") ==> e.button.chapter == bs[idx].chapter
    ensures e.Edited? ==> e.button.item == bs[idx].item
  {
    var btn := bs[idx];
    if key == Some("id") then
      if exists j :: 0 <= j < |bs| && j != idx && bs[j].id == value then Rejected(IdInUse)
      else Edited(btn.(id := value))
    else if key == Some("label") then Edited(btn.(caption := value))
    else if key == Some("chapter") then Edited(btn.(chapter := value))
    else if key == Some("type") then
      match KindOf(value)
      case None => Rejected(TypeNotKnown)
      case Some(CallbackKind) =>
        Edited(CallbackButton(btn.id, btn.caption, btn.chapter, if btn.CallbackButton? then btn.payload else "", btn.item))
      case Some(UrlKind) =>
        Edited(UrlButton(btn.id, btn.caption, btn.chapter, if btn.UrlButton? && btn.url != "" then btn.url else "https://", btn.item))
    else if key == Some("payload") then
      if btn.CallbackButton? then Edited(btn.(payload := value)) else Rejected(PayloadNeedsCallback)
    else if key == Some("url") then
      if btn.UrlButton? then Edited(btn.(url := value)) else Rejected(UrlNeedsUrlButton)
    else Rejected(KeyNotKnown)
  }

  /** The refusals: a taken id, an unknown type, a payload on a url button,
      a url on a callback button, and an unknown key. */
  lemma EditRefusals(bs: seq<Button>, idx: nat, key: Option<string>, value: string)
    requires idx < |bs|
    ensures var e := EditButton(bs, idx, key, value);
      && (e == Rejected(IdInUse) <==> key == Some("id") && exists j :: 0 <= j < |bs| && j != idx && bs[j].id == value)
      && (e == Rejected(TypeNotKnown) <==> key == Some("type") && KindOf(value).None?)
      && (e == Rejected(PayloadNeedsCallback) <==> key == Some("payload") && bs[idx].UrlButton?)
      && (e == Rejected(UrlNeedsUrlButton) <==> key == Some("url") && bs[idx].CallbackButton?)
      && (e == Rejected(KeyNotKnown) <==> key !in {Some("id"), Some("label"), Some("chapter"), Some("type"), Some("payload"), Some("url")})
  {
  }

  /** Turning a button into a callback button drops its url and keeps its
      payload (empty for a former url button); turning it into a url button
      drops its payload and keeps a non-empty url, `https://` otherwise. The
      other fields stay. */
  lemma TypeChange(bs: seq<Button>, idx: nat, value: string)
    requires idx < |bs| && KindOf(value).Some?
    ensures var b := bs[idx];
      var e := EditButton(bs, idx, Some("type"), value);
      && e.Edited?
      && e.button.id == b.id && e.button.caption == b.caption && e.button.chapter == b.chapter && e.button.item == b.item
      && (KindOf(value) == Some(CallbackKind) ==>
            e.button.CallbackButton? && e.button.payload == (if b.CallbackButton? then b.payload else ""))
      && (KindOf(value) == Some(UrlKind) ==>
            e.button.UrlButton? && e.button.url == (if b.UrlButton? && b.url != "" then b.url else "https://"))
  {
  }

  /** An edit never gives a button the id of another one: unique ids stay
      unique. */
  lemma EditKeepsUniqueIds(bs: seq<Button>, idx: nat, key: Option<string>, value: string)
    requires idx < |bs| && Buttons.UniqueIds(bs)
    requires EditButton(bs, idx, key, value).Edited?
    ensures Buttons.UniqueIds(bs[idx := EditButton(bs, idx, key, value).button])
  {
    var b := EditButton(bs, idx, key, value).button;
    assert key != Some("id") ==> b.id == bs[idx].id;
    var r := bs[idx := b];
    forall i, j | 0 <= i < j < |r| ensures r[i].id != r[j].id {
      if i == idx || j == idx {
        var other := if i == idx then j else i;
        assert r[other] == bs[other];
      } else {
        assert r[i] == bs[i] && r[j] == bs[j];
      }
    }
  }

  // ---------------------------------------------------------------------------
  // the free-text dialog
  // ---------------------------------------------------------------------------

  /** `message.text?.trim() || ''`. */
  function MessageText(msg: Option<string>): string {
    if msg.Some? then Text.Trim(msg.value) else ""
  }

  /** What one message does: the user's next session, the buttons, a request
      to the store, and the reply. */
  datatype Step = Step(session: AdminSession, buttons: seq<Button>, request: Option<StoreRequest>, reply: Reply)

  /** The message handler for an administrator whose session is `s`. */
  function MessageStep(bs: seq<Button>, s: AdminSession, msg: Option<string>): (st: Step)
    ensures st.request.Some? ==> st.session == IdleSession && s.mode in {SetWelcomeAskText, SetResponseAskBoth}
    ensures st.session == s || st.session == IdleSession || s.mode in {EditBtnAskId, EditBtnAskKey}
    ensures s.mode !in {AddBtnAskAll, DelBtnAskId, EditBtnAskValue} ==> st.buttons == bs
  {
    var text := MessageText(msg);
    match s.mode {
      case AddBtnAskAll =>
        match ParseAddLine(text) {
          case MissingField => Step(s, bs, None, NeedFiveFields)
          case UnknownKind => Step(s, bs, None, NeedKnownType)
          case AddOk(b) => Step(IdleSession, Buttons.Upsert(bs, b), None, ButtonAdded(b.id))
        }
      case DelBtnAskId => Step(IdleSession, Buttons.RemoveById(bs, text), None, ButtonRemoved(text))
      case EditBtnAskId =>
        if text in Buttons.Ids(bs) then
          Step(s.(workingButtonId := Some(text), mode := EditBtnAskKey), bs, None, AskFor(EditBtnAskKey))
        else Step(s, bs, None, ButtonNotFound)
      case EditBtnAskKey => Step(s.(workingKey := Some(text), mode := EditBtnAskValue), bs, None, AskValue(text))
      case EditBtnAskValue =>
        var idx := if s.workingButtonId.Some? then Buttons.IndexOfId(bs, s.workingButtonId.value) else -1;
        if idx == -1 then Step(IdleSession, bs, None, ButtonGone)
        else
          match EditButton(bs, idx, s.workingKey, text) {
            case Rejected(e) => Step(s, bs, None, EditFailed(e))
            case Edited(b) => Step(IdleSession, bs[idx := b], None, ButtonUpdated(s.workingButtonId.value))
          }
      case SetWelcomeAskText => Step(IdleSession, bs, Some(SetWelcome(text)), WelcomeUpdated)
      case SetResponseAskBoth =>
        if msg.None? then Step(s, bs, None, NeedText)
        else
          match ParseResponse(msg.value) {
            case None => Step(s, bs, None, NeedPayloadAndAnswer)
            case Some(pa) => Step(IdleSession, bs, Some(SetResponse(pa.0, pa.1)), ResponseSaved(pa.0))
          }
      case Idle => Step(s, bs, None, Silent)
    }
  }

  /** A wrong add-button line keeps the dialog where it is and the buttons
      as they are; a right one upserts the button and ends the dialog. */
  lemma AddDialog(bs: seq<Button>, s: AdminSession, msg: Option<string>)
    requires s.mode == AddBtnAskAll
    ensures var st := MessageStep(bs, s, msg);
      var line := ParseAddLine(MessageText(msg));
      && (!line.AddOk? ==> st.session == s && st.buttons == bs && st.request.None?)
      && (line.AddOk? ==> st.session == IdleSession && st.buttons == Buttons.Upsert(bs, line.button))
  {
  }

  /** An add-button line written as the prompt asks adds or replaces exactly
      that button. */
  lemma AddDialogAccepts(bs: seq<Button>, s: AdminSession, id: string, caption: string, kindWord: string, chapter: string, value: string)
    requires s.mode == AddBtnAskAll
    requires Clean(id) && Clean(caption) && Clean(kindWord) && Clean(chapter) && Clean(value)
    requires KindOf(kindWord).Some?
    requires var line := Text.Join([id, caption, kindWord, chapter, value], "|"); Text.Trim(line) == line
    ensures var st := MessageStep(bs, s, Some(Text.Join([id, caption, kindWord, chapter, value], "|")));
      && st.session == IdleSession
      && st.buttons == Buttons.Upsert(bs, MakeButton(KindOf(kindWord).value, id, caption, chapter, value))
  {
    AddLineRoundTrip(id, caption, kindWord, chapter, value);
  }

  /** The first edit step: an unknown id keeps asking; a known one is
      remembered and the dialog asks for the key. The key step takes any
      text and asks for the value. */
  lemma EditDialogFirstSteps(bs: seq<Button>, s: AdminSession, msg: Option<string>)
    ensures var text := MessageText(msg);
      var st := MessageStep(bs, s, msg);
      && (s.mode == EditBtnAskId && text !in Buttons.Ids(bs) ==> st.session == s && st.buttons == bs)
      && (s.mode == EditBtnAskId && text in Buttons.Ids(bs) ==>
            st.session == s.(workingButtonId := Some(text), mode := EditBtnAskKey) && st.buttons == bs)
      && (s.mode == EditBtnAskKey ==>
            st.session == s.(workingKey := Some(text), mode := EditBtnAskValue) && st.buttons == bs)
  {
  }

  /** The value step: when the button is gone the dialog ends and nothing
      changes; a refused edit keeps the dialog at the value step and changes
      nothing; an accepted one writes the button in its place. */
  lemma EditDialogValueStep(bs: seq<Button>, s: AdminSession, msg: Option<string>)
    requires s.mode == EditBtnAskValue
    ensures var st := MessageStep(bs, s, msg);
      var gone := s.workingButtonId.None? || s.workingButtonId.value !in Buttons.Ids(bs);
      && (gone ==> st.session == IdleSession && st.buttons == bs && st.reply == ButtonGone)
      && (!gone ==>
            var idx := Buttons.IndexOfId(bs, s.workingButtonId.value);
            var e := EditButton(bs, idx, s.workingKey, MessageText(msg));
            && (e.Rejected? ==> st.session == s && st.session.mode == EditBtnAskValue && st.buttons == bs)
            && (e.Edited? ==> st.session == IdleSession && st.buttons == bs[idx := e.button] && |st.buttons| == |bs|))
  {
  }

  /** The delete step removes every button with the typed id, whatever it
      is, and ends the dialog; an unknown id removes nothing. */
  lemma DeleteDialog(bs: seq<Button>, s: AdminSession, msg: Option<string>)
    requires s.mode == DelBtnAskId
    ensures var st := MessageStep(bs, s, msg);
      var id := MessageText(msg);
      && st.session == IdleSession && st.request.None? && st.reply == ButtonRemoved(id)
      && (forall b :: b in st.buttons <==> b in bs && b.id != id)
      && (id !in Buttons.Ids(bs) ==> st.buttons == bs)
  {
    var st := MessageStep(bs, s, msg);
    var id := MessageText(msg);
    forall b ensures b in st.buttons <==> b in bs && b.id != id {
      Buttons.RemoveByIdMembers(bs, id, b);
    }
    if id !in Buttons.Ids(bs) {
      Buttons.RemoveAbsentId(bs, id);
    }
  }

  /** The welcome step requests the trimmed text as the new greeting, even an
      empty one, and ends the dialog without touching the buttons. */
  lemma WelcomeDialog(bs: seq<Button>, s: AdminSession, msg: Option<string>)
    requires s.mode == SetWelcomeAskText
    ensures MessageStep(bs, s, msg) == Step(IdleSession, bs, Some(SetWelcome(MessageText(msg))), WelcomeUpdated)
    ensures msg.Some? ==> MessageStep(bs, s, msg).request == Some(SetWelcome(Text.Trim(msg.value)))
  {
  }

  /** The set-response step: without a payload or an answer nothing is
      requested and the dialog stays; otherwise the pair is requested and the
      dialog ends. */
  lemma ResponseDialog(bs: seq<Button>, s: AdminSession, msg: Option<string>)
    requires s.mode == SetResponseAskBoth
    ensures var st := MessageStep(bs, s, msg);
      && st.buttons == bs
      && (msg.None? || ParseResponse(msg.value).None? ==> st.session == s && st.request.None?)
      && (msg.Some? && ParseResponse(msg.value).Some? ==>
            var pa := ParseResponse(msg.value).value;
            st.session == IdleSession && st.request == Some(SetResponse(pa.0, pa.1)))
  {
  }

  /** Only the edit, add and delete steps touch the buttons, and an idle
      session ignores the text. */
  lemma DialogTouchesButtonsOnlyWhenAsked(bs: seq<Button>, s: AdminSession, msg: Option<string>)
    requires s.mode in {Idle, EditBtnAskId, EditBtnAskKey, SetWelcomeAskText, SetResponseAskBoth}
    ensures MessageStep(bs, s, msg).buttons == bs
    ensures s.mode == Idle ==> MessageStep(bs, s, msg) == Step(s, bs, None, Silent)
  {
  }

  // ---------------------------------------------------------------------------
  // callback presses
  // ---------------------------------------------------------------------------

  /** The menu actions that open a dialog, with the mode each one enters. */
  const MenuModes: map<string, AdminMode> := map[
    "ADM_ADD_BTN" := AddBtnAskAll,
    "ADM_DEL_BTN" := DelBtnAskId,
    "ADM_EDIT_BTN" := EditBtnAskId,
    "ADM_SET_WELCOME" := SetWelcomeAskText,
    "ADM_SET_RESPONSE" := SetResponseAskBoth]

  /** `data.startsWith('ADM_')`. */
  predicate IsMenuAction(data: string) {
    |data| >= 4 && data[..4] == "ADM_"
  }

  /** One line of the button list. */
  function ListLine(b: Button): string {
    "• id: " + b.id + " | label: " + b.caption + " | type: " + (if b.CallbackButton? then "callback" else "url")
      + " | chapter: " + b.chapter
  }

  const EmptyList: string := "Список пуст."

  /** `Array#join` puts the first element first. */
  lemma JoinStartsWithFirst(parts: seq<string>, sep: string)
    requires parts != []
    ensures |Text.Join(parts, sep)| >= |parts[0]|
    ensures Text.Join(parts, sep)[..|parts[0]|] == parts[0]
  {
    if |parts| > 1 {
      assert Text.Join(parts, sep) == parts[0] + (sep + Text.Join(parts[1..], sep));
    }
  }

  /** The reply to `ADM_LIST_BTNS`: one line per button, or the empty-list
      text when there are none. */
  function ListText(bs: seq<Button>): (r: string)
    ensures bs == [] ==> r == EmptyList
    ensures bs != [] ==> |r| >= |ListLine(bs[0])| && r[..|ListLine(bs[0])|] == ListLine(bs[0])
  {
    var lines := seq(|bs|, k requires 0 <= k < |bs| => ListLine(bs[k]));
    var joined := Text.Join(lines, "\n");
    assert bs != [] ==> |joined| >= |lines[0]| > 0 && joined[..|lines[0]|] == lines[0] by {
      if bs != [] { JoinStartsWithFirst(lines, "\n"); }
    }
    if joined == "" then EmptyList else joined
  }

  /** The callback handler: the next sessions and the reply. */
  function CallbackStep(sessions: map<int, AdminSession>, d: ConfigData, chatType: Option<string>, uid: int, data: Option<string>)
    : (r: (map<int, AdminSession>, Reply))
    ensures data.None? || data == Some("") ==> r == (sessions, Silent)
    ensures !Store.IsAdminIn(d, uid) ==> r.0 == sessions
    ensures forall u :: u != uid ==> (u in r.0 <==> u in sessions) && (u in sessions ==> r.0[u] == sessions[u])
  {
    if data.None? || data.value == "" then (sessions, Silent)
    else
      var key := data.value;
      if key == "ADMIN" then
        if !Store.IsAdminIn(d, uid) then (sessions, NoRights)
        else (sessions[uid := IdleSession], AdminPanel)
      else if IsMenuAction(key) then
        if !Store.IsAdminIn(d, uid) then (sessions, NoRights)
        else
          var s := SessionOf(sessions, uid);
          var stored := sessions[uid := s];
          if key in MenuModes then (stored[uid := s.(mode := MenuModes[key])], AskFor(MenuModes[key]))
          else if key == "ADM_LIST_BTNS" then (stored, ButtonList(ListText(d.buttons)))
          else if key == "ADM_BACK_TO_MAIN" then
            (sessions[uid := IdleSession], MainMenu(Keyboards.LegacyBuildKeyboard(Some(Keyboards.Viewer(chatType, Some(uid))), MainChapter, d)))
          else (stored, Silent)
      else (sessions, Routed(Responses.LegacyRoute(key, Keyboards.Viewer(chatType, Some(uid)), d)))
  }

  /** An administrator's menu press enters the action's mode and keeps the
      working fields; nobody else's session changes. */
  lemma MenuPressEntersMode(sessions: map<int, AdminSession>, d: ConfigData, chatType: Option<string>, uid: int, action: string)
    requires Store.IsAdminIn(d, uid) && action in MenuModes
    ensures var (next, reply) := CallbackStep(sessions, d, chatType, uid, Some(action));
      && next == sessions[uid := SessionOf(sessions, uid).(mode := MenuModes[action])]
      && reply == AskFor(MenuModes[action])
  {
    assert IsMenuAction(action);
  }

  /** `ADMIN` and `ADM_BACK_TO_MAIN` reset an administrator's session. */
  lemma PanelAndBackReset(sessions: map<int, AdminSession>, d: ConfigData, chatType: Option<string>, uid: int, action: string)
    requires Store.IsAdminIn(d, uid) && (action == "ADMIN" || action == "ADM_BACK_TO_MAIN")
    ensures CallbackStep(sessions, d, chatType, uid, Some(action)).0 == sessions[uid := IdleSession]
  {
    if action == "ADM_BACK_TO_MAIN" {
      assert IsMenuAction(action);
      assert action !in MenuModes;
    }
  }

  /** The list action and an unknown `ADM_` action leave every session as it
      reads; at most an idle session is stored for the presser. */
  lemma OtherMenuPressKeepsSessions(sessions: map<int, AdminSession>, d: ConfigData, chatType: Option<string>, uid: int, action: string)
    requires Store.IsAdminIn(d, uid) && IsMenuAction(action)
    requires action !in MenuModes && action != "ADM_BACK_TO_MAIN"
    ensures var next := CallbackStep(sessions, d, chatType, uid, Some(action)).0;
      && (forall u :: SessionOf(next, u) == SessionOf(sessions, u))
      && next == sessions[uid := SessionOf(sessions, uid)]
  {
    assert action != "ADMIN" by { assert action[3] == '_'; }
    var next := CallbackStep(sessions, d, chatType, uid, Some(action)).0;
    assert next == sessions[uid := SessionOf(sessions, uid)];
    forall u ensures SessionOf(next, u) == SessionOf(sessions, u) {
    }
  }

  /** A press by someone who is not an administrator never changes a
      session, and neither does an ordinary press, which goes to the
      router. */
  lemma PressesThatKeepSessions(sessions: map<int, AdminSession>, d: ConfigData, chatType: Option<string>, uid: int, data: string)
    ensures !Store.IsAdminIn(d, uid) ==> CallbackStep(sessions, d, chatType, uid, Some(data)).0 == sessions
    ensures data != "" && data != "ADMIN" && !IsMenuAction(data) ==>
      CallbackStep(sessions, d, chatType, uid, Some(data)) ==
        (sessions, Routed(Responses.LegacyRoute(data, Keyboards.Viewer(chatType, Some(uid)), d)))
  {
  }

  // ---------------------------------------------------------------------------
  // commands
  // ---------------------------------------------------------------------------

  /** A text command. The numeric argument of the administrator commands is
      given as the value JavaScript's `Number` gives the argument, when that
      value is finite; `replyFromId` is the sender of the message replied
      to. */
  datatype Command =
    | SetWelcomeCmd(text: string)
    | SetResponseCmd(text: string)
    | AddButtonCmd(kind: Kind, text: string)
    | RenameButtonCmd(text: string)
    | DeleteButtonCmd(text: string)
    | AddAdminCmd(text: string, argValue: Option<int>, replyFromId: Option<int>)
    | DeleteAdminCmd(text: string, argValue: Option<int>)

  /** The command word. */
  function CommandName(c: Command): string {
    match c
    case SetWelcomeCmd(_) => "/setwelcome"
    case SetResponseCmd(_) => "/setresponse"
    case AddButtonCmd(kind, _) => if kind == CallbackKind then "/addbtn_callback" else "/addbtn_url"
    case RenameButtonCmd(_) => "/renamebtn"
    case DeleteButtonCmd(_) => "/delbtn"
    case AddAdminCmd(_, _, _) => "/addadmin"
    case DeleteAdminCmd(_, _) => "/deladmin"
  }

  /** `text.replace('/<command>', '').trim()`. */
  function ArgOf(text: string, name: string): string {
    Text.Trim(Text.ReplaceFirst(text, name, ""))
  }

  /** The administrator commands need an administrator, the others a super
      user. */
  predicate NeedsSuper(c: Command) {
    c.AddAdminCmd? || c.DeleteAdminCmd?
  }

  /** What a command does: the next document, a request to the store, and
      the reply. */
  datatype CommandResult = CommandResult(data: ConfigData, request: Option<StoreRequest>, reply: Reply)

  /** `/setwelcome <text>`: a non-empty text is requested as the greeting. */
  function SetWelcomeCommand(d: ConfigData, arg: string): (r: CommandResult)
    ensures r.data == d
    ensures r.request.Some? <==> arg != ""
    ensures r.request.Some? ==> r.request.value == SetWelcome(arg)
  {
    if arg == "" then CommandResult(d, None, Usage("/setwelcome"))
    else CommandResult(d, Some(SetWelcome(arg)), WelcomeUpdated)
  }

  /** `/setresponse <payload> | <text>`: parsed like the dialog's line. */
  function SetResponseCommand(d: ConfigData, arg: string): (r: CommandResult)
    ensures r.data == d
    ensures r.request.Some? <==> ParseResponse(arg).Some?
    ensures r.request.Some? ==>
      r.request.value == SetResponse(ParseResponse(arg).value.0, ParseResponse(arg).value.1)
  {
    match ParseResponse(arg)
    case None => CommandResult(d, None, Usage("/setresponse"))
    case Some(pa) => CommandResult(d, Some(SetResponse(pa.0, pa.1)), ResponseSaved(pa.0))
  }

  /** `.filter(Boolean)` on the fields: the empty ones dropped. */
  function NonEmptyFields(raw: string): (parts: seq<string>)
    ensures forall k :: 0 <= k < |parts| ==> parts[k] != ""
  {
    var keep := (f: string) => f != "";
    var parts := Seqs.Filter(Fields(raw), keep);
    assert forall k :: 0 <= k < |parts| ==> parts[k] != "" by {
      forall k | 0 <= k < |parts| ensures parts[k] != "" {
        assert parts[k] in parts;
      }
    }
    parts
  }

  /** The fields of `/addbtn_*` after empty ones are dropped: three
      (chapter `MAIN`) or four. */
  function AddButtonArgs(raw: string): (a: Option<(string, string, string, string)>)
    ensures a.Some? ==> a.value.0 != "" && a.value.1 != "" && a.value.2 != "" && a.value.3 != ""
  {
    var parts := NonEmptyFields(raw);
    if |parts| == 3 then Some((parts[0], parts[1], MainChapter, parts[2]))
    else if |parts| == 4 then Some((parts[0], parts[1], parts[2], parts[3]))
    else None
  }

  /** `/addbtn_callback` and `/addbtn_url`: only the buttons can change, by
      an upsert of the button the fields describe. */
  function AddButtonCommand(d: ConfigData, kind: Kind, arg: string): (r: CommandResult)
    ensures r.request.None? && r.data == d.(buttons := r.data.buttons)
    ensures AddButtonArgs(arg).None? ==> r.data == d
    ensures r.reply.ButtonAdded? ==>
      && AddButtonArgs(arg).Some?
      && var a := AddButtonArgs(arg).value;
         a.0 == r.reply.id && r.data.buttons == Buttons.Upsert(d.buttons, MakeButton(kind, a.0, a.1, a.2, a.3))
    ensures !r.reply.ButtonAdded? ==> r.data == d
    ensures AddButtonArgs(arg).Some? ==>
      var a := AddButtonArgs(arg).value;
      r.reply == ButtonAdded(a.0) && r.data.buttons == Buttons.Upsert(d.buttons, MakeButton(kind, a.0, a.1, a.2, a.3))
  {
    match AddButtonArgs(arg)
    case None => CommandResult(d, None, Usage(if kind == CallbackKind then "/addbtn_callback" else "/addbtn_url"))
    case Some(a) =>
      if a.0 == "" || a.1 == "" || a.3 == "" then CommandResult(d, None, MissingParameters)
      else CommandResult(d.(buttons := Buttons.Upsert(d.buttons, MakeButton(kind, a.0, a.1, a.2, a.3))), None, ButtonAdded(a.0))
  }

  /** Three clean fields give a button in the main chapter, four a button in
      the chapter given. */
  lemma AddButtonFields(kind: Kind, fs: seq<string>)
    requires |fs| == 3 || |fs| == 4
    requires forall k :: 0 <= k < |fs| ==> Clean(fs[k])
    ensures var a := AddButtonArgs(Text.Join(fs, "|"));
      && a.Some?
      && (|fs| == 3 ==> a.value == (fs[0], fs[1], MainChapter, fs[2]))
      && (|fs| == 4 ==> a.value == (fs[0], fs[1], fs[2], fs[3]))
  {
    FieldsOfJoin(fs);
    Seqs.FilterKeepsAll(fs, (f: string) => f != "");
  }

  /** `/renamebtn <id> | <new label>`: both parts must be non-empty. */
  function RenameButtonCommand(d: ConfigData, arg: string): (r: CommandResult)
    ensures r.data == d
    ensures r.request.Some? <==> Fields(arg)[0] != "" && FieldAt(Fields(arg), 1) != ""
    ensures r.request.Some? ==> r.request.value == RenameButton(Fields(arg)[0], Fields(arg)[1])
  {
    var parts := Fields(arg);
    if parts[0] == "" || FieldAt(parts, 1) == "" then CommandResult(d, None, Usage("/renamebtn"))
    else CommandResult(d, Some(RenameButton(parts[0], parts[1])), ButtonRenamed(parts[0]))
  }

  /** `/delbtn <id>`: every button with that id dropped; without an id,
      nothing. */
  function DeleteButtonCommand(d: ConfigData, arg: string): (r: CommandResult)
    ensures r.request.None? && r.data == d.(buttons := r.data.buttons)
    ensures arg == "" ==> r.data == d
    ensures arg != "" ==> arg !in Buttons.Ids(r.data.buttons)
    ensures forall b :: b in r.data.buttons <==> b in d.buttons && (arg == "" || b.id != arg)
  {
    if arg == "" then CommandResult(d, None, Usage("/delbtn"))
    else
      var bs := Buttons.RemoveById(d.buttons, arg);
      assert forall b :: b in bs <==> b in d.buttons && b.id != arg by {
        forall b ensures b in bs <==> b in d.buttons && b.id != arg {
          Buttons.RemoveByIdMembers(d.buttons, arg, b);
        }
      }
      CommandResult(d.(buttons := bs), None, ButtonRemoved(arg))
  }

  /** The user id `/addadmin` acts on: the argument when there is one,
      otherwise the sender of the message replied to when that id is truthy. */
  function AddAdminTarget(arg: string, argValue: Option<int>, replyFromId: Option<int>): Option<int> {
    if arg != "" then argValue
    else if replyFromId.Some? && replyFromId.value != 0 then replyFromId
    else None
  }

  /** `/addadmin`: only the administrator list can change, and only by
      adding one id that is neither 0 nor a super user. */
  function AddAdminCommand(d: ConfigData, arg: string, argValue: Option<int>, replyFromId: Option<int>): (r: CommandResult)
    ensures r.request.None? && r.data == d.(adminUserIds := r.data.adminUserIds)
    ensures r.reply.AdminAdded? ==>
      && r.reply.uid != 0 && r.reply.uid !in d.superUserIds
      && AddAdminTarget(arg, argValue, replyFromId) == Some(r.reply.uid)
      && r.data.adminUserIds == Store.AdminsAfterAdd(d.adminUserIds, d.superUserIds, r.reply.uid)
    ensures !r.reply.AdminAdded? ==> r.data == d
    ensures var t := AddAdminTarget(arg, argValue, replyFromId);
      t.Some? && t.value != 0 && t.value !in d.superUserIds ==>
        r.reply == AdminAdded(t.value) && r.data.adminUserIds == Store.AdminsAfterAdd(d.adminUserIds, d.superUserIds, t.value)
  {
    if arg != "" && argValue.None? then CommandResult(d, None, Usage("/addadmin"))
    else
      var target := AddAdminTarget(arg, argValue, replyFromId);
      if target.None? || target.value == 0 then CommandResult(d, None, NoUserId)
      else if target.value in d.superUserIds then CommandResult(d, None, AlreadySuper)
      else CommandResult(d.(adminUserIds := Store.AdminsAfterAdd(d.adminUserIds, d.superUserIds, target.value)), None, AdminAdded(target.value))
  }

  /** `/deladmin <userId>`: only the administrator list can change, by
      removing a numeric id that is not a super user's. */
  function DeleteAdminCommand(d: ConfigData, arg: string, argValue: Option<int>): (r: CommandResult)
    ensures r.request.None? && r.data == d.(adminUserIds := r.data.adminUserIds)
    ensures arg == "" || argValue.None? || argValue.value in d.superUserIds ==> r.data == d
    ensures r.reply.AdminRemoved? ==>
      && arg != "" && argValue == Some(r.reply.uid) && r.reply.uid !in d.superUserIds
      && r.data.adminUserIds == Store.AdminsAfterRemove(d.adminUserIds, r.reply.uid)
    ensures !r.reply.AdminRemoved? ==> r.data == d
    ensures arg != "" && argValue.Some? && argValue.value !in d.superUserIds ==>
      r.reply == AdminRemoved(argValue.value) && r.data.adminUserIds == Store.AdminsAfterRemove(d.adminUserIds, argValue.value)
  {
    if arg == "" || argValue.None? then CommandResult(d, None, Usage("/deladmin"))
    else if argValue.value in d.superUserIds then CommandResult(d, None, CannotDemoteSuper)
    else CommandResult(d.(adminUserIds := Store.AdminsAfterRemove(d.adminUserIds, argValue.value)), None, AdminRemoved(argValue.value))
  }

  /** The command, once its guards have passed. */
  function RunCommand(d: ConfigData, c: Command): CommandResult {
    var arg := ArgOf(c.text, CommandName(c));
    match c
    case SetWelcomeCmd(_) => SetWelcomeCommand(d, arg)
    case SetResponseCmd(_) => SetResponseCommand(d, arg)
    case AddButtonCmd(kind, _) => AddButtonCommand(d, kind, arg)
    case RenameButtonCmd(_) => RenameButtonCommand(d, arg)
    case DeleteButtonCmd(_) => DeleteButtonCommand(d, arg)
    case AddAdminCmd(_, argValue, replyFromId) => AddAdminCommand(d, arg, argValue, replyFromId)
    case DeleteAdminCmd(_, argValue) => DeleteAdminCommand(d, arg, argValue)
  }

  /** A command: ignored outside a private chat, refused to users without
      the rights it needs, run otherwise. */
  function CommandStep(d: ConfigData, chatType: Option<string>, uid: int, c: Command): (r: CommandResult)
    ensures !Guard.OnlyPrivate(chatType) ==> r == CommandResult(d, None, Silent)
    ensures Guard.OnlyPrivate(chatType) && NeedsSuper(c) && uid !in d.superUserIds ==> r == CommandResult(d, None, SuperOnly)
    ensures Guard.OnlyPrivate(chatType) && !NeedsSuper(c) && !Store.IsAdminIn(d, uid) ==> r == CommandResult(d, None, NoRights)
    ensures r.data.superUserIds == d.superUserIds && r.data.texts == d.texts && r.data.responses == d.responses && r.data.parents == d.parents
  {
    if !Guard.OnlyPrivate(chatType) then CommandResult(d, None, Silent)
    else if NeedsSuper(c) && uid !in d.superUserIds then CommandResult(d, None, SuperOnly)
    else if !NeedsSuper(c) && !Store.IsAdminIn(d, uid) then CommandResult(d, None, NoRights)
    else RunCommand(d, c)
  }

  /** Only the button and administrator commands change the document, each
      only its own list; the others at most emit a request. */
  lemma CommandsTouchOneList(d: ConfigData, chatType: Option<string>, uid: int, c: Command)
    ensures var d' := CommandStep(d, chatType, uid, c).data;
      && (c.AddButtonCmd? || c.DeleteButtonCmd? ==> d' == d.(buttons := d'.buttons))
      && (c.AddAdminCmd? || c.DeleteAdminCmd? ==> d' == d.(adminUserIds := d'.adminUserIds))
      && (c.SetWelcomeCmd? || c.SetResponseCmd? || c.RenameButtonCmd? ==> d' == d)
  {
  }

  /** Outside a private chat, or from a user without the rights the command
      needs, a command changes nothing and requests nothing. */
  lemma UnauthorisedCommandsDoNothing(d: ConfigData, chatType: Option<string>, uid: int, c: Command)
    requires !Guard.OnlyPrivate(chatType) || (NeedsSuper(c) && uid !in d.superUserIds) || !Store.IsAdminIn(d, uid)
    ensures CommandStep(d, chatType, uid, c).data == d && CommandStep(d, chatType, uid, c).request.None?
  {
  }

  /** The administrator commands never list a super user as administrator,
      and `/deladmin` leaves the list alone when asked to demote one. */
  lemma SuperUsersProtected(d: ConfigData, chatType: Option<string>, uid: int, c: Command)
    requires c.AddAdminCmd? || c.DeleteAdminCmd?
    requires forall x :: x in d.adminUserIds ==> x !in d.superUserIds
    ensures var d' := CommandStep(d, chatType, uid, c).data;
      && d'.superUserIds == d.superUserIds
      && forall x :: x in d'.adminUserIds ==> x !in d'.superUserIds
    ensures c.DeleteAdminCmd? && c.argValue.Some? && c.argValue.value in d.superUserIds ==>
      CommandStep(d, chatType, uid, c).data == d
  {
    var r := CommandStep(d, chatType, uid, c);
    if r.reply.AdminAdded? {
      Store.AddAdminNoSuper(d.adminUserIds, d.superUserIds, r.reply.uid);
    } else if r.reply.AdminRemoved? {
      forall x | x in r.data.adminUserIds ensures x !in d.superUserIds {
        Store.RemoveAdminMembers(d.adminUserIds, r.reply.uid, x);
      }
    }
  }

  /** The argument of a command typed as `/<command> <argument>`. */
  lemma ArgOfTyped(name: string, arg: string)
    requires Trimmed(arg)
    ensures ArgOf(name + " " + arg, name) == arg
  {
    assert name + " " + arg == name + (" " + arg);
    Text.ReplaceLeadingCommand(name, " " + arg);
    assert " " + arg == " " + arg + "";
    Text.TrimOfPadded(" ", arg, "");
    Text.TrimOfTrimmed(arg);
  }

  /** Text that starts and ends with something other than white space. */
  predicate Trimmed(s: string) {
    s == "" || (!Text.IsSpace(s[0]) && !Text.IsSpace(s[|s| - 1]))
  }

  /** Clean fields joined by `|` start and end with a field's character. */
  lemma {:induction false} JoinOfCleanIsTrimmed(fs: seq<string>)
    requires fs != [] && forall k :: 0 <= k < |fs| ==> Clean(fs[k])
    ensures Trimmed(Text.Join(fs, "|"))
    ensures |Text.Join(fs, "|")| > 0
  {
    if |fs| > 1 {
      var tail := Text.Join(fs[1..], "|");
      JoinOfCleanIsTrimmed(fs[1..]);
      var line := Text.Join(fs, "|");
      assert line == fs[0] + "|" + tail;
      assert line[0] == fs[0][0];
      assert line[|line| - 1] == tail[|tail| - 1];
    }
  }

  /** A command from a user with the rights it needs, in a private chat,
      runs. */
  lemma AuthorisedCommandRuns(d: ConfigData, uid: int, c: Command)
    requires if NeedsSuper(c) then uid in d.superUserIds else Store.IsAdminIn(d, uid)
    ensures CommandStep(d, Some("private"), uid, c) == RunCommand(d, c)
  {
    assert Guard.OnlyPrivate(Some("private"));
  }

  /** `/setresponse payload | answer` from an administrator in a private
      chat requests exactly that pair. */
  lemma SetResponseCommandRoundTrip(d: ConfigData, uid: int, payload: string, answer: string)
    requires Store.IsAdminIn(d, uid)
    requires Clean(payload) && Clean(answer)
    ensures CommandStep(d, Some("private"), uid, SetResponseCmd("/setresponse " + payload + " | " + answer)).request
         == Some(SetResponse(payload, answer))
  {
    var c := SetResponseCmd("/setresponse " + payload + " | " + answer);
    var line := payload + " | " + answer;
    assert c.text == "/setresponse" + " " + line;
    assert Trimmed(line) by {
      assert line[0] == payload[0] && line[|line| - 1] == answer[|answer| - 1];
    }
    ArgOfTyped("/setresponse", line);
    AuthorisedCommandRuns(d, uid, c);
    assert RunCommand(d, c) == SetResponseCommand(d, line);
    ResponseRoundTrip(payload, answer);
  }

  /** `/addbtn_url id | label | url` from an administrator in a private chat
      adds or replaces that url button in the main chapter. */
  lemma AddUrlButtonCommand(d: ConfigData, uid: int, id: string, caption: string, url: string)
    requires Store.IsAdminIn(d, uid)
    requires Clean(id) && Clean(caption) && Clean(url)
    ensures CommandStep(d, Some("private"), uid, AddButtonCmd(UrlKind, "/addbtn_url " + Text.Join([id, caption, url], "|"))).data
         == d.(buttons := Buttons.Upsert(d.buttons, UrlButton(id, caption, MainChapter, url, NoItemInfo)))
  {
    var fs := [id, caption, url];
    JoinOfCleanIsTrimmed(fs);
    AddUrlLineRuns(d, uid, Text.Join(fs, "|"));
    AddButtonThreeFields(d, UrlKind, fs);
  }

  /** `/addbtn_url` with a trimmed argument from an administrator in a
      private chat runs the add-button command on that argument. */
  lemma AddUrlLineRuns(d: ConfigData, uid: int, line: string)
    requires Store.IsAdminIn(d, uid) && Trimmed(line)
    ensures CommandStep(d, Some("private"), uid, AddButtonCmd(UrlKind, "/addbtn_url " + line))
         == AddButtonCommand(d, UrlKind, line)
  {
    var c := AddButtonCmd(UrlKind, "/addbtn_url " + line);
    assert c.text == "/addbtn_url" + " " + line && CommandName(c) == "/addbtn_url";
    ArgOfTyped("/addbtn_url", line);
    assert !NeedsSuper(c);
    AuthorisedCommandRuns(d, uid, c);
    assert RunCommand(d, c) == AddButtonCommand(d, UrlKind, ArgOf(c.text, CommandName(c)));
  }

  /** Three clean fields add a button in the main chapter. */
  lemma AddButtonThreeFields(d: ConfigData, kind: Kind, fs: seq<string>)
    requires |fs| == 3 && Clean(fs[0]) && Clean(fs[1]) && Clean(fs[2])
    ensures AddButtonCommand(d, kind, Text.Join(fs, "|")).data
         == d.(buttons := Buttons.Upsert(d.buttons, MakeButton(kind, fs[0], fs[1], MainChapter, fs[2])))
  {
    AddButtonFields(kind, fs);
    var a := AddButtonArgs(Text.Join(fs, "|"));
    assert a == Some((fs[0], fs[1], MainChapter, fs[2]));
  }

  // ---------------------------------------------------------------------------
  // the bot object
  // ---------------------------------------------------------------------------

  /** The entry file's state: the store and the `adminSessions` map. */
  class AdminBot {
    const config: Store.ConfigStore
    /** `adminSessions`. */
    var sessions: map<int, AdminSession>

    constructor(config: Store.ConfigStore)
      ensures this.config == config && sessions == map[]
    {
      this.config := config;
      sessions := map[];
    }

    /** `getSession(uid)`: the stored session, or a fresh idle one that is
        stored before it is returned (unlike `getAdminSession`, which does not
        store it). */
    method GetSession(uid: int) returns (s: AdminSession)
      modifies this
      ensures s == SessionOf(old(sessions), uid)
      ensures sessions == old(sessions)[uid := s]
      ensures uid in old(sessions) ==> sessions == old(sessions)
      ensures uid !in old(sessions) ==> s == IdleSession && uid in sessions
    {
      if uid in sessions {
        return sessions[uid];
      }
      s := IdleSession;
      sessions := sessions[uid := s];
    }

    /** `resetSession(uid)`: a new idle session for `uid`. */
    method ResetSession(uid: int)
      modifies this
      ensures sessions == old(sessions)[uid := IdleSession]
    {
      sessions := sessions[uid := IdleSession];
    }

    /** The `callback_query` handler. */
    method OnCallback(chatType: Option<string>, uid: int, data: Option<string>) returns (reply: Reply)
      modifies this
      ensures (sessions, reply) == CallbackStep(old(sessions), config.data, chatType, uid, data)
    {
      if data.None? || data.value == "" {
        return Silent;
      }
      var key := data.value;
      if key == "ADMIN" {
        if !config.IsAdmin(uid) {
          return NoRights;
        }
        ResetSession(uid);
        return AdminPanel;
      }
      if IsMenuAction(key) {
        if !config.IsAdmin(uid) {
          return NoRights;
        }
        var s := GetSession(uid);
        if key in MenuModes {
          sessions := sessions[uid := s.(mode := MenuModes[key])];
          return AskFor(MenuModes[key]);
        } else if key == "ADM_LIST_BTNS" {
          return ButtonList(ListText(config.Get().buttons));
        } else if key == "ADM_BACK_TO_MAIN" {
          ResetSession(uid);
          assert sessions == old(sessions)[uid := IdleSession];
          return MainMenu(Keyboards.LegacyBuildKeyboard(Some(Keyboards.Viewer(chatType, Some(uid))), MainChapter, config.Get()));
        }
        return Silent;
      }
      reply := Routed(Responses.LegacyRoute(key, Keyboards.Viewer(chatType, Some(uid)), config.Get()));
    }

    /** The `message` handler: ignored outside a private chat and for users
        who are not administrators; otherwise the session is fetched (and
        stored when new) and the step of its mode is taken. */
    method OnMessage(chatType: Option<string>, uid: int, msg: Option<string>) returns (reply: Reply, request: Option<StoreRequest>)
      modifies this, config
      ensures !Guard.OnlyPrivate(chatType) || !old(config.IsAdmin(uid)) ==>
        sessions == old(sessions) && config.data == old(config.data) && reply == Silent && request.None?
      ensures Guard.OnlyPrivate(chatType) && old(config.IsAdmin(uid)) ==>
        var st := MessageStep(old(config.data.buttons), SessionOf(old(sessions), uid), msg);
        && sessions == old(sessions)[uid := st.session]
        && config.data == old(config.data).(buttons := st.buttons)
        && reply == st.reply && request == st.request
    {
      if !Guard.OnlyPrivate(chatType) || !config.IsAdmin(uid) {
        return Silent, None;
      }
      var s := GetSession(uid);
      var text := MessageText(msg);
      var bs := config.Get().buttons;
      request := None;
      match s.mode {
        case AddBtnAskAll =>
          var line := ParseAddLine(text);
          if line.MissingField? {
            return NeedFiveFields, None;
          } else if line.UnknownKind? {
            return NeedKnownType, None;
          }
          config.AddButton(line.button);
          ResetSession(uid);
          reply := ButtonAdded(line.button.id);
        case DelBtnAskId =>
          config.RemoveButton(text);
          ResetSession(uid);
          reply := ButtonRemoved(text);
        case EditBtnAskId =>
          if text !in Buttons.Ids(bs) {
            return ButtonNotFound, None;
          }
          sessions := sessions[uid := s.(workingButtonId := Some(text), mode := EditBtnAskKey)];
          reply := AskFor(EditBtnAskKey);
        case EditBtnAskKey =>
          sessions := sessions[uid := s.(workingKey := Some(text), mode := EditBtnAskValue)];
          reply := AskValue(text);
        case EditBtnAskValue =>
          var idx := if s.workingButtonId.Some? then Buttons.IndexOfId(bs, s.workingButtonId.value) else -1;
          if idx == -1 {
            ResetSession(uid);
            return ButtonGone, None;
          }
          var e := EditButton(bs, idx, s.workingKey, text);
          if e.Rejected? {
            return EditFailed(e.error), None;
          }
          config.SetAll(config.Get().(buttons := bs[idx := e.button]));
          ResetSession(uid);
          reply := ButtonUpdated(s.workingButtonId.value);
        case SetWelcomeAskText =>
          ResetSession(uid);
          reply, request := WelcomeUpdated, Some(SetWelcome(text));
        case SetResponseAskBoth =>
          if msg.None? {
            return NeedText, None;
          }
          var pa := ParseResponse(msg.value);
          if pa.None? {
            return NeedPayloadAndAnswer, None;
          }
          ResetSession(uid);
          reply, request := ResponseSaved(pa.value.0), Some(SetResponse(pa.value.0, pa.value.1));
        case Idle =>
          reply := Silent;
      }
    }

    /** A text command, applied to the store. */
    method OnCommand(chatType: Option<string>, uid: int, c: Command) returns (request: Option<StoreRequest>, reply: Reply)
      modifies config
      ensures CommandResult(config.data, request, reply) == CommandStep(old(config.data), chatType, uid, c)
    {
      var d := config.Get();
      var r := CommandStep(d, chatType, uid, c);
      request, reply := r.request, r.reply;
      if r.data == d {
        return;
      }
      var arg := ArgOf(c.text, CommandName(c));
      match c {
        case AddButtonCmd(kind, _) =>
          assert r == AddButtonCommand(d, kind, arg);
          var a := AddButtonArgs(arg).value;
          config.AddButton(MakeButton(kind, a.0, a.1, a.2, a.3));
        case DeleteButtonCmd(_) =>
          config.RemoveButton(arg);
        case AddAdminCmd(_, argValue, replyFromId) =>
          config.AddAdmin(reply.uid);
        case DeleteAdminCmd(_, argValue) =>
          config.RemoveAdmin(reply.uid);
        case _ =>
      }
    }
  }
}
