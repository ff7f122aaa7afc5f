/** Routing of an ordinary callback press: navigation into a chapter, the
    canned response stored for the pressed payload, or a fixed fallback. The
    current router treats `MAIN` as a chapter unconditionally; the older one
    in the bot's entry file knows a chapter only by its buttons. */
module Responses {
  import opened Wrappers
  import opened Types
  import Keyboards

  const CategoryPrompt: string := "Выберите категорию:"
  const NoResponseText: string := "Нет текста для этой кнопки. Админ может задать через /setresponse."

  /** What the bot does with a press. */
  datatype Outcome =
    | NoAction
    | ChapterNav(chapter: string, text: string, keyboard: seq<seq<Keyboards.Key>>)
    | ResponseReply(text: string, keyboard: seq<seq<Keyboards.Key>>)
    | Fallback(text: string, keyboard: seq<seq<Keyboards.Key>>)

  /** Some configured button lives in `chapter`. */
  predicate HasChapter(bs: seq<Button>, chapter: string) {
    exists b :: b in bs && b.chapter == chapter
  }

  /** The stored response is usable only when present and non-empty (truthy). */
  predicate HasResponse(d: ConfigData, data: string) {
    data in d.responses && d.responses[data] != ""
  }

  /** The greeting of the main chapter: the welcome text, followed by
      `, <first name>` when the sender has a non-empty first name. */
  function MainGreeting(welcome: string, firstName: Option<string>): (t: string)
    ensures firstName.Some? && firstName.value != "" ==> t == welcome + ", " + firstName.value
    ensures firstName.None? || firstName.value == "" ==> t == welcome
  {
    if firstName.Some? && firstName.value != "" then welcome + ", " + firstName.value else welcome
  }

  /** The current router. */
  function Route(data: Option<string>, viewer: Keyboards.Viewer, firstName: Option<string>, d: ConfigData): (r: Outcome)
    ensures data.None? || data.value == "" ==> r == NoAction
    ensures r.ChapterNav? <==> data.Some? && data.value != "" && (data.value == MainChapter || HasChapter(d.buttons, data.value))
    ensures r.ChapterNav? ==> r.chapter == data.value && r.keyboard == Keyboards.BuildKeyboard(Some(viewer), data.value, d)
    ensures r.ChapterNav? ==> r.text == (if data.value == MainChapter then MainGreeting(d.texts.welcome, firstName) else CategoryPrompt)
    ensures r.ResponseReply? ==> HasResponse(d, data.value) && r.text == d.responses[data.value]
    ensures r.ResponseReply? || r.Fallback? ==> r.keyboard == Keyboards.BuildKeyboard(Some(viewer), MainChapter, d)
    ensures r.Fallback? ==> r.text == NoResponseText
  {
    if data.None? || data.value == "" then NoAction
    else
      var key := data.value;
      if key == MainChapter || HasChapter(d.buttons, key) then
        var text := if key == MainChapter then MainGreeting(d.texts.welcome, firstName) else CategoryPrompt;
        ChapterNav(key, text, Keyboards.BuildKeyboard(Some(viewer), key, d))
      else if HasResponse(d, key) then
        ResponseReply(d.responses[key], Keyboards.BuildKeyboard(Some(viewer), MainChapter, d))
      else
        Fallback(NoResponseText, Keyboards.BuildKeyboard(Some(viewer), MainChapter, d))
  }

  /** Every non-empty press gets a reply: navigation, the response for exactly
      that payload, or the fallback when no usable response is stored. */
  lemma RouteCases(data: string, viewer: Keyboards.Viewer, firstName: Option<string>, d: ConfigData)
    requires data != ""
    ensures var r := Route(Some(data), viewer, firstName, d);
      && (data != MainChapter && !HasChapter(d.buttons, data) && HasResponse(d, data) ==> r == ResponseReply(d.responses[data], Keyboards.BuildKeyboard(Some(viewer), MainChapter, d)))
      && (data != MainChapter && !HasChapter(d.buttons, data) && !HasResponse(d, data) ==> r.Fallback?)
  {
  }

  /** Chapter navigation wins over a response stored under the same key. */
  lemma ChapterBeatsResponse(data: string, viewer: Keyboards.Viewer, firstName: Option<string>, d: ConfigData)
    requires data != "" && HasResponse(d, data)
    requires data == MainChapter || HasChapter(d.buttons, data)
    ensures Route(Some(data), viewer, firstName, d).ChapterNav?
  {
  }

  /** The older router of the bot's entry file, for data that is neither
      `ADMIN` nor an `ADM_` action: a chapter only when a button lives there,
      always with the category prompt, and the older keyboard builder. */
  function LegacyRoute(data: string, viewer: Keyboards.Viewer, d: ConfigData): (r: Outcome)
    requires viewer.fromId.Some?
    ensures r != NoAction
    ensures r.ChapterNav? <==> HasChapter(d.buttons, data)
    ensures r.ChapterNav? ==> r == ChapterNav(data, CategoryPrompt, Keyboards.LegacyBuildKeyboard(Some(viewer), data, d))
    ensures r.ResponseReply? ==> HasResponse(d, data) && r.text == d.responses[data]
    ensures !r.ChapterNav? ==> r.keyboard == Keyboards.LegacyBuildKeyboard(Some(viewer), MainChapter, d)
    ensures r.Fallback? <==> !HasChapter(d.buttons, data) && !HasResponse(d, data)
  {
    if HasChapter(d.buttons, data) then
      ChapterNav(data, CategoryPrompt, Keyboards.LegacyBuildKeyboard(Some(viewer), data, d))
    else if HasResponse(d, data) then
      ResponseReply(d.responses[data], Keyboards.LegacyBuildKeyboard(Some(viewer), MainChapter, d))
    else
      Fallback(NoResponseText, Keyboards.LegacyBuildKeyboard(Some(viewer), MainChapter, d))
  }

  /** Where the two routers part: with no button in `MAIN`, the current router
      navigates to the main chapter while the older one treats `MAIN` as a
      payload. */
  lemma RoutersDifferOnBareMain(viewer: Keyboards.Viewer, firstName: Option<string>, d: ConfigData)
    requires viewer.fromId.Some?
    requires !HasChapter(d.buttons, MainChapter)
    ensures Route(Some(MainChapter), viewer, firstName, d).ChapterNav?
    ensures !LegacyRoute(MainChapter, viewer, d).ChapterNav?
  {
  }
}
