# Telegram shop bot — a Dafny model of its core

The bot serves a shop catalogue in Telegram. An inline keyboard shows the
buttons of one *chapter*. A callback button either opens another chapter or
answers with a canned *response*. Administrators edit the buttons, the
welcome text and the responses in two ways: a step-by-step dialog behind the
`⚙️ Admin Panel` button, or text commands. Super users also grant and revoke
administrator rights. An importer turns a Google spreadsheet (its TSV or CSV
export) into product-group, category and item buttons. An anti-spam
middleware throttles repeated callback presses for each user and chat.

The project models these parts, one Dafny module each:

| module | file | source |
|---|---|---|
| `Types` | `types.dfy` | the button, configuration and session records of `src/core/types.ts` |
| `Buttons` | `buttons.dfy` | the id-keyed button list: lookup, upsert, removal |
| `Store` | `config_store.dfy` | the `ConfigStore` class, over its in-memory document |
| `Session`, `Fsm` | `session.dfy`, `fsm.dfy` | the per-user session map and the administrator sessions built on it |
| `Guard` | `guard.dfy` | the private-chat, administrator and super-user guards |
| `Keyboards`, `Responses` | `keyboards.dfy`, `responses.dfy` | the keyboard builders and the callback router |
| `AntiSpam` | `antispam.dfy` | the per-user, per-chat cooldown and lock |
| `Sheets` | `sheets.dfy` | cleaning and parsing of sheet downloads, the fallback order of the downloads, column resolution, and rows to items |
| `SheetGroup` | `sheet_group.dfy` | the import of a sheet as a product group, and of a whole workbook |
| `Format`, `Helper` | `format.dfy`, `helper.dfy` | identifier codes, capitalisation, prices and item labels |
| `AdminFlow` | `admin_flow.dfy` | the entry file's session helpers, the admin menu, the per-mode message dialog, the button edit and the text commands |
| `Text`, `Seqs`, `Wrappers` | `text.dfy`, `seqs.dfy`, `wrappers.dfy` | helpers for strings, filtering and optional values |

Where the source changes state in place, the model is imperative:
- `ConfigStore`, the session stores, the anti-spam gate and the entry file's
  `adminSessions` are classes whose methods update their fields.
- The sheet parsers and the import phases are loops.

Each method is proved against a specification function, and the properties
are proved about those functions.

Replies to Telegram are modelled as tags (`Reply`, `Outcome`, `Verdict`).
The current time, the downloads, and the numeric value of a typed user id
come in as parameters.

## Model

| member | source | states |
|---|---|---|
| Store.ConfigStore.constructor | src/core/config/configStore.ts:9-20 | a fresh store has no super users, no administrators, no buttons and no responses |
| Store.ConfigStore.SetAll | src/core/config/configStore.ts:23-25 | the whole document is replaced by the given one |
| Store.ConfigStore.Set | src/core/config/configStore.ts:28-30 | the new document is the old one with the given fields spread over it |
| Store.MergeReplacesExactlyGiven | src/core/config/configStore.ts:28-30 | after a partial replacement, every given field holds the given value and every absent field keeps its old value |
| Store.MergeNothing | src/core/config/configStore.ts:28-30 | an empty partial document changes nothing |
| Store.MergeCompose | src/core/config/configStore.ts:28-30 | two partial replacements in a row equal one replacement by their combination |
| Store.ConfigStore.Get | src/core/config/configStore.ts:49-51 | returns the current document |
| Store.ConfigStore.IsSuper | src/core/config/configStore.ts:54-59 | true exactly when the id is listed among the super users |
| Store.ConfigStore.IsAdmin | src/core/config/configStore.ts:61-67 | true exactly when the id is a super user or a listed administrator, so every super user is an administrator |
| Store.AdminsAfterAdd | src/core/config/configStore.ts:70-74 | the id is appended when it is neither listed nor a super user; otherwise the list is unchanged |
| Store.AddAdminIdempotent | src/core/config/configStore.ts:70-74 | adding the same id twice equals adding it once |
| Store.AddAdminNoSuper | src/core/config/configStore.ts:71 | adding never puts a super user into an administrator list that held none |
| Store.ConfigStore.AddAdmin | src/core/config/configStore.ts:70-74 | only the administrator list changes, as described by AdminsAfterAdd, and the id is an administrator afterwards |
| Store.RemoveAdminMembers | src/core/config/configStore.ts:76-78 | after removal an id is listed exactly when it was listed before and is not the removed one |
| Store.RemoveAdminConcat | src/core/config/configStore.ts:76-78 | removal distributes over concatenation, so the remaining ids keep their order |
| Store.RemoveAbsentAdmin | src/core/config/configStore.ts:76-78 | removing an id that is not listed changes nothing |
| Store.ConfigStore.RemoveAdmin | src/core/config/configStore.ts:76-78 | only the administrator list changes, every occurrence of the id is dropped, and the super-user status is unchanged |
| Buttons.Ids | src/core/config/configStore.ts:82 | the ids of the buttons, position by position |
| Buttons.IndexOfId | src/core/config/configStore.ts:82 | `findIndex` by id: -1 exactly when no button has the id; otherwise the first button with that id |
| Buttons.Upsert | src/core/config/configStore.ts:81-85 | a known id is replaced at its first index and the length is kept; a new id is appended |
| Buttons.UpsertThenFind | src/core/config/configStore.ts:81-85 | after an upsert, looking up the id finds the upserted button, and the other buttons keep their places |
| Buttons.UpsertKeepsOtherLookups | src/core/config/configStore.ts:81-85 | upserting a button with another id leaves the lookup of an id unchanged: the same position, holding the same button |
| Buttons.UpsertKeepsUnique | src/core/config/configStore.ts:81-85 | an upsert keeps unique ids unique |
| Store.ConfigStore.AddButton | src/core/config/configStore.ts:81-85 | only the button list changes, by Upsert, and unique ids stay unique |
| Buttons.RemoveByIdMembers | src/core/config/configStore.ts:87-89 | a button remains exactly when it was there and has another id |
| Buttons.RemoveByIdConcat | src/core/config/configStore.ts:87-89 | removal distributes over concatenation, so the remaining buttons keep their order |
| Buttons.RemoveAbsentId | src/core/config/configStore.ts:87-89 | removing an absent id changes nothing |
| Store.ConfigStore.RemoveButton | src/core/config/configStore.ts:87-89 | only the button list changes, and no button with the id remains |
| Session.MemorySession.constructor | src/core/session/session.ts:7-9 | a new store is empty and keeps its factory |
| Session.MemorySession.Get | src/core/session/session.ts:10 | returns the stored value when there is one, and nothing otherwise; it is a read-only function |
| Session.MemorySession.Set | src/core/session/session.ts:11 | a following get returns the value, and every other id is unaffected |
| Session.MemorySession.Reset | src/core/session/session.ts:12 | stores the given value, or the factory's value when none is given; other ids are unaffected |
| Fsm.AdminSessions.constructor | src/core/session/fsm.ts:5 | the administrator sessions start empty, with an idle session as the default |
| Fsm.AdminSessions.GetAdminSession | src/core/session/fsm.ts:7-9 | the stored session, or an idle one that is not stored |
| Fsm.AdminSessions.SetAdminSession | src/core/session/fsm.ts:10-12 | a following get returns the session, and other users' sessions are unaffected |
| Fsm.AdminSessions.ResetAdminSession | src/core/session/fsm.ts:13-15 | the user's session becomes idle with no working fields, and other users' sessions are unaffected |
| Guard.OnlyPrivate | src/core/utils/guard.ts:4 | passes exactly for a private chat; a missing chat, a group, a supergroup and a channel are refused |
| Guard.EnsureAdmin | src/core/utils/guard.ts:6-13 | passes exactly for a present, non-zero id that is a super user or an administrator; otherwise it denies with the rights message |
| Guard.EnsureSuper | src/core/utils/guard.ts:15-22 | passes exactly for a present, non-zero id that is a super user; otherwise it denies with the super-user message |
| Guard.SuperPassesAdmin | src/core/utils/guard.ts:15-22 | whenever the super-user guard passes, the administrator guard passes |
| Guard.FalsyIdDenied | src/core/utils/guard.ts:6-22 | a missing id and the id 0 are denied by both guards |
| Keyboards.RenderButton | src/core/ui/keyboards.ts:20-24 | a callback button renders as a callback key with its label and payload; a url button renders as a link with its label and url |
| Keyboards.InChapterMembers | src/core/ui/keyboards.ts:18-19 | a button is shown exactly when it is among the buttons and belongs to the chapter |
| Keyboards.InChapterConcat | src/core/ui/keyboards.ts:18-19 | the chapter filter distributes over concatenation, so the buttons keep their order |
| Keyboards.ContentRows | src/core/ui/keyboards.ts:18-24 | one row per button of the chapter, in order, each holding that button alone |
| Keyboards.ShowsAdminRow | src/core/ui/keyboards.ts:31-40 | the admin row is shown exactly in `MAIN` to a viewer in a private chat whom the administrator guard passes |
| Keyboards.BuildKeyboard | src/core/ui/keyboards.ts:17-43 | the content rows first. The back row follows exactly when the chapter is not `MAIN`. The admin row follows exactly in `MAIN` for a private chat whose sender is an administrator. The two extra rows never both appear, and the row count is their sum |
| Keyboards.LegacyBuildKeyboard | src/index.ts:71-91 | the older builder: the same content and back rows, with the admin row added in every chapter for an administrator in a private chat |
| Keyboards.BuildersAgreeOnMain | src/index.ts:71-91 | in `MAIN` the two builders give the same keyboard |
| Keyboards.LegacyAdminRowOutsideMain | src/index.ts:85-88 | outside `MAIN` the older builder puts the admin row after the back row, where the newer one shows no admin row |
| Keyboards.AdminMenuKeyboard | src/core/ui/keyboards.ts:5-15 | seven one-button rows carrying the menu actions in order, the last one `ADM_BACK_TO_MAIN` |
| Responses.MainGreeting | src/features/responses/index.ts:20-23 | the welcome text, followed by `, ` and the first name when there is one |
| Responses.Route | src/features/responses/index.ts:7-40 | absent or empty data does nothing. `MAIN`, or a chapter some button belongs to, is navigation to it with the greeting or the category prompt. Otherwise the stored response or the fallback text is sent with the `MAIN` keyboard |
| Responses.RouteCases | src/features/responses/index.ts:14-39 | non-empty data leads to exactly one of navigation, a response or the fallback |
| Responses.ChapterBeatsResponse | src/features/responses/index.ts:14-27 | a chapter wins over a response stored under the same key |
| Responses.LegacyRoute | src/index.ts:232-250 | the entry file's router: navigation exactly for a chapter some button belongs to; otherwise the stored response, or the fallback exactly when there is none |
| Responses.RoutersDifferOnBareMain | src/index.ts:238-243 | when no button belongs to `MAIN`, the new router still navigates there and the entry file's router does not |
| AntiSpam.EffectiveCooldown | src/middlewares/antispam.ts:28 | the cooldown is `max(0, cooldownMs ?? 800)` and never negative |
| AntiSpam.SettingsOf | src/middlewares/antispam.ts:28-30 | a non-negative cooldown; the lock only when it is explicitly enabled; exactly the given payloads whitelisted |
| AntiSpam.ChatIdOf | src/middlewares/antispam.ts:47-50 | the chat id comes from the chat, then from the callback's message, then from the message |
| AntiSpam.KeyInjective | src/middlewares/antispam.ts:54 | different sender and chat pairs get different keys |
| AntiSpam.TrackedKey | src/middlewares/antispam.ts:37-54 | a key is tracked exactly for a callback with data that is not whitelisted and has both a sender and a chat; the key is that pair |
| AntiSpam.UntrackedPasses | src/middlewares/antispam.ts:44 | a whitelisted payload passes and leaves the store as it was |
| AntiSpam.RejectionKeepsStore | src/middlewares/antispam.ts:60-70 | a rejection leaves the store unchanged |
| AntiSpam.EnterVerdict | src/middlewares/antispam.ts:57-75 | an unseen key starts unlocked at time 0. A locked key is rejected when the lock is on. A key inside its cooldown is rejected. Otherwise the key is admitted, with its time set to now and its lock set when the lock is on |
| AntiSpam.EnterIsPerPair | src/middlewares/antispam.ts:54-75 | entering changes no other key's state |
| AntiSpam.LockHoldsUntilFinish | src/middlewares/antispam.ts:60-75 | with the lock on, a second press of the same pair before the finish is rejected |
| AntiSpam.UnlockedStaysUnlocked | src/middlewares/antispam.ts:73-84 | with the lock off, no state is ever locked |
| AntiSpam.CooldownElapsedAdmits | src/middlewares/antispam.ts:66-75 | with the lock off, a press after the cooldown has elapsed is admitted |
| AntiSpam.Gate.constructor | src/middlewares/antispam.ts:28-33 | the gate starts with the derived settings and an empty store |
| AntiSpam.Gate.TryEnter | src/middlewares/antispam.ts:37-75 | the verdict and the new store are those of the entry step, and a rejection or pass-through leaves the store unchanged |
| AntiSpam.Gate.Finish | src/middlewares/antispam.ts:77-84 | after the handler ends, the key's time becomes the end time and its lock is released |
| Format.ToCapitalize | src/core/utils/format.ts:1-5 | empty for empty input; otherwise the same length, with the first character upper-cased and the rest lower-cased |
| Format.LowerIdempotent | src/core/utils/format.ts:1-5 | lower-casing twice equals lower-casing once |
| Format.ToCapitalizeIdempotent | src/core/utils/format.ts:1-5 | capitalising twice equals capitalising once |
| Format.ToCode | src/core/utils/format.ts:7-14 | the code contains no white space and consists only of upper-case letters, digits, `_` and `-` |
| Format.StripKeepsCodeText | src/core/utils/format.ts:10 | the first replacement keeps text made of word characters, white space and `-` |
| Format.CodeOutChars | src/core/utils/format.ts:10-13 | code characters survive the first replacement, are not white space, and are fixed by upper-casing |
| Format.ToCodeOfCode | src/core/utils/format.ts:7-14 | a code is its own code |
| Format.ToCodeIdempotent | src/core/utils/format.ts:7-14 | coding twice equals coding once |
| Format.ToCodeTrimInvariant | src/core/utils/format.ts:11-12 | white space around the input produces no leading or trailing `_` |
| Format.ToCodeOfTrimmedCodeText | src/core/utils/format.ts:7-14 | text made only of kept characters, with no white space at either end, is only collapsed and upper-cased |
| Format.ToCodeJoinsWords | src/core/utils/format.ts:12 | a run of white space between two codes becomes exactly one `_` |
| Format.FormatPriceAsWritten | src/core/utils/format.ts:16-20 | the formatter as stored: the stored placeholder literal for a falsy value; otherwise the trimmed text with white-space runs collapsed |
| Format.FormatPrice | src/core/utils/format.ts:16-20 | the same formatter with the Cyrillic placeholder; a non-empty value gives single-spaced trimmed text |
| Format.FormatPricePlaceholderGarbled | src/core/utils/format.ts:17 | the two formatters agree on every real price; they differ on a missing one, where the stored placeholder has no Cyrillic letter |
| Format.CollapseOfSingleSpaced | src/core/utils/format.ts:19 | collapsing a single-spaced text changes nothing |
| Format.FormatPriceIdempotent | src/core/utils/format.ts:16-20 | formatting a formatted price changes nothing |
| Format.PrettyProductLabel | src/core/utils/format.ts:22-31 | the five known keys get their fixed emoji labels; any other key is capitalised, with an empty key labelled as a category |
| Format.PrettyProductLabelAsWritten | src/core/utils/format.ts:22-31 | the labels as stored agree with the intended ones on every key that is not special |
| Format.PrettyProductLabelGarbled | src/core/utils/format.ts:24-29 | the stored iPhone label starts with a Latin letter instead of the phone emoji, and the stored empty-key label differs from the intended one |
| Helper.MemoryPart | src/core/utils/helper.ts:17-20 | the memory part is `<memory> GB`, present exactly when the memory is non-blank and not `"0"` |
| Helper.PriceText | src/core/utils/helper.ts:22-24 | `уточняйте` without a price; `от ` and the formatted price for a starting price; otherwise the formatted price |
| Helper.LeftPart | src/core/utils/helper.ts:26 | empty name and memory parts are dropped, and the rest are joined with a space |
| Helper.RenderItemLabel | src/core/utils/helper.ts:14-27 | the label is always `<left> — <price text>`, with `ITEM` for a missing name |
| Helper.LabelStartsWithName | src/core/utils/helper.ts:14-28 | a card whose name is present and non-empty, or missing and so `ITEM`, begins with that name |
| Helper.LabelEndsWithPrice | src/core/utils/helper.ts:22-27 | every card ends with ` — ` and its price text |
| Helper.MissingLabelAndPrice | src/core/utils/helper.ts:15-27 | an item with no name, memory or price is labelled `ITEM — уточняйте` |
| Helper.EmptyLabelDropped | src/core/utils/helper.ts:15-26 | an empty name leaves only the memory on the left |
| Helper.ZeroMemoryHidden | src/core/utils/helper.ts:17-20 | a memory of `"0"` is not shown |
| Helper.AskForPriceIsPlaceholder | src/core/utils/helper.ts:22-24 | the missing-price text equals the intended placeholder of the price formatter |
| Helper.PriceSource | src/core/utils/helper.ts:10-12 | the price is read from `price`, then `стоимость`, then `цена`, taking the first that is set |
| Sheets.DropBom | src/core/sheets.ts:21 | exactly one leading byte-order mark is removed |
| Sheets.DropGuard | src/core/sheets.ts:21 | a leading `)]}'` is removed together with the white space after it; other text is kept |
| Sheets.CleanText | src/core/sheets.ts:20-22 | the text without the mark and the guard, trimmed, so it neither starts nor ends with white space |
| Sheets.TrimOfTrimStart | src/core/sheets.ts:21 | dropping leading white space before trimming changes nothing |
| Sheets.CleanTextStripsWrapping | src/core/importers/sheetTsv.ts:13-15 | a body wrapped in the mark and the guard, or in the guard alone, cleans to the trimmed body |
| Sheets.DropCr | src/core/sheets.ts:25 | a carriage return ending a line is dropped |
| Sheets.SplitLines | src/core/sheets.ts:25 | one line for each piece of the line-feed split |
| Sheets.SplitLinesCrLf | src/core/sheets.ts:25 | a CRLF break cuts the text like a line feed |
| Sheets.SplitLinesLf | src/core/sheets.ts:25 | a line feed cuts the text into the line before it and the lines after it |
| Sheets.NonEmptyLines | src/core/sheets.ts:41 | exactly the non-empty lines are kept |
| Sheets.AssignWellFormed | src/core/sheets.ts:30-35 | assigning a key keeps a row well formed |
| Sheets.AssignCellsKeys | src/core/sheets.ts:30-35 | after the first `n` header steps, the row is well formed and holds exactly the first `n` header names |
| Sheets.AssignCellsWellFormed | src/core/sheets.ts:30-35 | the header steps keep a row well formed |
| Sheets.AssignCellsDomain | src/core/sheets.ts:30-35 | the keys after the header steps are exactly the header names seen so far |
| Sheets.CellOfLastColumn | src/core/sheets.ts:32-33 | under a repeated header, the last step for that name wins: the name holds the value of its last column |
| Sheets.CellsAt | src/core/sheets.ts:33 | step `i` assigns column `i` trimmed, or the empty string past the end of a short line |
| Sheets.RowCellOfLastColumn | src/core/sheets.ts:30-35 | in a line's row, a header name not repeated later holds its own column trimmed, or the empty string past the end of a short line |
| Sheets.HeaderOf | src/core/sheets.ts:27 | the header has at least one name |
| Sheets.RowsUnderLines | src/core/sheets.ts:29-36 | one row per line under the header, each from its own line |
| Sheets.RowsHaveHeaderKeys | src/core/importers/sheetTsv.ts:23-28 | every row is well formed and has exactly the header's names as keys |
| Sheets.RowsOfLength | src/core/sheets.ts:26-29 | no rows without lines or under an all-blank header; otherwise one row for each line after the header |
| Sheets.BlankLineRow | src/core/sheets.ts:30-35 | a blank line still gives a row, with every value empty |
| Sheets.EmptyDownloadHasNoRows | src/core/importers/sheetTsv.ts:17-46 | an empty or all-white download parses to no rows in both formats |
| Sheets.BuildRow | src/core/sheets.ts:31-34 | the loop builds the row of a line under the header |
| Sheets.BuildRows | src/core/sheets.ts:29-36 | the loop builds one row per line under the header |
| Sheets.ParseLines | src/core/sheets.ts:26-36 | the shared parse of lines: nothing for an all-blank header; otherwise the rows under it |
| Sheets.ParseTsv | src/core/sheets.ts:24-37 | rows of a tab-separated text, blank interior lines included |
| Sheets.ParseCsv | src/core/sheets.ts:39-54 | rows of a comma-separated text with empty lines dropped, every comma separating |
| Sheets.LoadSheetAsRows | src/core/importers/sheetTsv.ts:49-72 | the loop with early return gives the rows of the first source that yields any, and how many sources it tried, as `FirstRows` defines them |
| Sheets.ParseAttempt | src/core/importers/sheetTsv.ts:59-63 | a failed download parses to nothing; otherwise the attempt's own parser reads the text |
| Sheets.NextAttempt | src/core/importers/sheetTsv.ts:56-69 | one attempt either ends the search with its own rows or leaves it to the sources after it |
| Sheets.FirstRowsSpec | src/core/importers/sheetTsv.ts:56-71 | sources are tried in order. Every source before the one used gave no rows. The result is that source's rows, and it is empty exactly when no remaining source gives rows |
| Sheets.IndexOfName | src/core/sheets.ts:58 | the first position of the name, or -1 exactly when it is absent |
| Sheets.MatchOf | src/core/sheets.ts:58-60 | the header at the first position whose trimmed lower-case form equals the lower-cased variant, no earlier header matching; nothing exactly when none does |
| Sheets.CanonAll | src/core/sheets.ts:57 | every header trimmed and lower-cased, position by position |
| Sheets.Resolve | src/core/sheets.ts:56-63 | the header MatchOf finds for the first variant, in variant order, that matches any header, every earlier variant matching none; nothing exactly when no variant matches any header |
| Sheets.ResolveColumnKey | src/core/sheets.ts:56-63 | the loop with early return computes Resolve |
| Sheets.DigitRun | src/core/sheets.ts:78 | the length of the leading run of digits |
| Sheets.FirstDigits | src/core/sheets.ts:78 | the first run of digits, non-empty and all digits; nothing exactly when the text has no digit |
| Sheets.ToInt | src/core/sheets.ts:76-80 | a number exactly when the value is present and contains a digit |
| Sheets.DigitRunOfDigits | src/core/sheets.ts:78 | digits followed by a non-digit form a whole run |
| Sheets.ToIntReadsNumber | src/core/sheets.ts:76-80 | a number written inside text without other digits before it is read back exactly |
| Sheets.FirstDigitsAfter | src/core/sheets.ts:78 | leading text without digits is skipped |
| Sheets.CellOf | src/core/sheets.ts:121-126 | a value exactly when the row has the key |
| Sheets.ItemOf | src/core/sheets.ts:120-127 | an item's product and name are the trimmed cells, and its memory is the integer read from its memory cell |
| Sheets.ItemsOf | src/core/sheets.ts:120-128 | no more items than rows; every item has a product or a name and is the item of one of the rows |
| Sheets.ItemsOfSnoc | src/core/sheets.ts:120-128 | one more row adds its item after the others exactly when it names a product or a model, so items keep the order of their rows |
| Sheets.Mapped | src/core/sheets.ts:120-127 | one item per row |
| Sheets.MappedSnoc | src/core/sheets.ts:120-127 | mapping one more row appends that row's item |
| Sheets.NamedRowKept | src/core/sheets.ts:128 | every row with a product or a name yields its item |
| Sheets.OrElse | src/core/sheets.ts:114-118 | a resolved column, or the fallback name |
| Sheets.FirstRowsAt | src/core/sheets.ts:92-110 | the rows are those of the first source that gives any |
| Sheets.LoadedFromFirstSource | src/core/sheets.ts:112-129 | the items are those of the first source with rows, with every column resolved against that source's first row and falling back to its own name |
| Sheets.LoadIphonesFromSheet | src/core/sheets.ts:82-129 | the items are LoadedItems of the downloads: the first source with rows, its columns resolved, its rows mapped and filtered. Every item has a product or a name, and no source with rows means no items |
| SheetGroup.ProductLabelCases | src/core/importers/sheetGroup.ts:15-27 | a trimmed, upper-cased key among the seven known products gets its fixed label; any other non-empty product is capitalised as written, and the empty one as `Категория`; a label is never empty |
| SheetGroup.ProductLabelOfPadded | src/core/importers/sheetGroup.ts:15-27 | white space around a known product does not change its label |
| SheetGroup.ProductsMember | src/core/importers/sheetGroup.ts:67 | every item's trimmed product is among the products |
| SheetGroup.DistinctMembers | src/core/importers/sheetGroup.ts:67 | `Array.from(new Set(filter(Boolean)))`: each string once, and exactly the non-empty ones |
| SheetGroup.DistinctFirst | src/core/importers/sheetGroup.ts:67 | a non-empty first string comes first |
| SheetGroup.DistinctProductsUnique | src/core/importers/sheetGroup.ts:67 | each product is listed once |
| SheetGroup.DistinctProductsMembers | src/core/importers/sheetGroup.ts:67 | exactly the non-empty products of the items are listed |
| SheetGroup.DistinctProductsFirst | src/core/importers/sheetGroup.ts:67 | the first item's product, when it has one, is listed first |
| SheetGroup.GuessGroupTitle | src/core/importers/sheetGroup.ts:138-144 | a guess is a non-empty product some item names; when some item names a product and there is no guess, the sheet has at least two products |
| SheetGroup.GuessIsOnlyProduct | src/core/importers/sheetGroup.ts:138-143 | a guessed title is the only non-empty product: some item names it and no item names another |
| SheetGroup.NoGuessMeansNoneOrMany | src/core/importers/sheetGroup.ts:138-143 | no guess means no item names a product, or two items name different ones |
| SheetGroup.GroupTitle | src/core/importers/sheetGroup.ts:37 | the title has no white space at either end; a non-empty explicit title wins; with neither an explicit title nor a guess it is `SHEET_<gid>`, trimmed |
| SheetGroup.GroupTitleOfOneProduct | src/core/importers/sheetGroup.ts:37 | without an explicit title, a sheet whose items name one product and nothing else is titled with that product |
| SheetGroup.GroupTitleOfNoProduct | src/core/importers/sheetGroup.ts:37 | without an explicit title, a sheet whose items name no product is titled `SHEET_<gid>`, trimmed |
| SheetGroup.GroupTitleFallback | src/core/importers/sheetGroup.ts:37 | without an explicit title, a one-product sheet is titled by its product, and a sheet with no products is titled `SHEET_<gid>` |
| SheetGroup.ExplicitTitleWins | src/core/importers/sheetGroup.ts:37 | a non-empty explicit title wins, trimmed |
| SheetGroup.MemoryText | src/core/importers/sheetGroup.ts:91 | memory text exactly when there is a memory size, non-empty and trimmed |
| SheetGroup.PriceText | src/core/importers/sheetGroup.ts:92 | a price exactly when it is not blank, trimmed |
| SheetGroup.ItemButton | src/core/importers/sheetGroup.ts:83-104 | no button exactly for an item without a product or a name. Otherwise a callback button with id `<product code>_<name code>[_<memory code>]`, captioned with the trimmed name, in the product's chapter, with payload `ITEM:<id>` and the trimmed memory and price |
| SheetGroup.MemoryIsCode | src/core/importers/sheetGroup.ts:94 | a memory size is its own code |
| SheetGroup.ItemIdWithMemory | src/core/importers/sheetGroup.ts:94 | the id of an item with memory is `<product>_<name>_<memory>` in codes |
| SheetGroup.ItemIdsSeparateMemory | src/core/importers/sheetGroup.ts:94 | two memory sizes of one model get different ids, and neither id equals the id without memory |
| SheetGroup.ValidCount | src/core/importers/sheetGroup.ts:83-89 | the number of items naming both a product and a model, at most the number of items |
| SheetGroup.Import | src/core/importers/sheetGroup.ts:31-112 | an empty sheet changes nothing and counts nothing; otherwise only the buttons and the parent links change |
| SheetGroup.UpsertKeepsIds | src/core/importers/sheetGroup.ts:44-48 | an upsert loses no id, and the upserted id is present afterwards |
| SheetGroup.ItemsCounted | src/core/importers/sheetGroup.ts:83-107 | the item phase counts each valid item exactly once, as added or as updated, and does not touch the parent links |
| SheetGroup.CategoriesCounted | src/core/importers/sheetGroup.ts:69-80 | the category phase adds at most one chapter per product |
| SheetGroup.CategoriesPointChapters | src/core/importers/sheetGroup.ts:79 | the category phase writes exactly the products' parent links, in order |
| SheetGroup.PointChaptersEffect | src/core/importers/sheetGroup.ts:79 | every product's chapter points at the group, and every other parent link is kept |
| SheetGroup.CategoriesParents | src/core/importers/sheetGroup.ts:69-80 | after the category phase every product's chapter points at the group, and every other parent link is kept |
| SheetGroup.CategoriesKeepUnique | src/core/importers/sheetGroup.ts:69-80 | the category phase keeps ids unique |
| SheetGroup.ItemsKeepUnique | src/core/importers/sheetGroup.ts:83-107 | the item phase keeps ids unique |
| SheetGroup.ItemsKeepIds | src/core/importers/sheetGroup.ts:83-107 | the item phase keeps every earlier id and adds the id of every valid item |
| SheetGroup.ImportCounts | src/core/importers/sheetGroup.ts:50-107 | an import adds at most one group and at most one chapter per product, and counts each valid item once |
| SheetGroup.ImportKeepsUniqueIds | src/core/importers/sheetGroup.ts:44-107 | an import keeps button ids unique |
| SheetGroup.ItemsFindLast | src/core/importers/sheetGroup.ts:83-107 | after the item phase, the button found under an id is the ItemButton of the last item with that id |
| SheetGroup.ImportWritesItems | src/core/importers/sheetGroup.ts:83-107 | every valid item's id is present after the import, and the button found under it is the ItemButton of the last item in the sheet with that id |
| SheetGroup.ImportParents | src/core/importers/sheetGroup.ts:63-79 | after an import every product's chapter points at the group. The group points at `PRODUCT_GROUP` unless a product's chapter has the group's id. Every other parent link is as before |
| SheetGroup.RunParentsOfCategories | src/core/importers/sheetGroup.ts:63-79 | the parent links after the three phases are those of the category phase over the group's own parent link |
| SheetGroup.RunChapterParents | src/core/importers/sheetGroup.ts:79 | after the three phases every product's chapter points at the group |
| SheetGroup.RunOtherParents | src/core/importers/sheetGroup.ts:63-79 | the group points at `PRODUCT_GROUP` unless a product's chapter shares its id, and other parent links are kept |
| SheetGroup.GuessedTitleSelfParent | src/core/importers/sheetGroup.ts:37-79 | a sheet titled by its only product makes the group its own parent |
| SheetGroup.Upsert | src/core/importers/sheetGroup.ts:44-48 | the new list is Buttons.Upsert. `added` holds exactly for a new id and appends; `updated` replaces in place at the found index and keeps the length |
| SheetGroup.AddGroup | src/core/importers/sheetGroup.ts:53-64 | the group phase: the group button is upserted, counted when new, and its parent link is set |
| SheetGroup.AddCategory | src/core/importers/sheetGroup.ts:70-79 | one category step: the category button is upserted, counted when new, and its parent link is set |
| SheetGroup.AddCategories | src/core/importers/sheetGroup.ts:69-80 | the loop does one category step per product, in order |
| SheetGroup.AddItems | src/core/importers/sheetGroup.ts:83-108 | the loop does one item step per item, in order |
| SheetGroup.ImportItemsAsGroup | src/core/importers/sheetGroup.ts:34-111 | the store's new document and the counts are those of Import |
| SheetGroup.ImportSheetAsGroup | src/core/importers/sheetGroup.ts:31-112 | the items are those LoadIphonesFromSheet gives for the downloads, and they are imported as Import describes |
| SheetGroup.ImportNextSheet | src/core/importers/sheetGroup.ts:123-132 | one sheet of the workbook is imported with its own title and gid, adds at most one group, and counts each of its valid items once |
| SheetGroup.TotalGroupsBounded | src/core/importers/sheetGroup.ts:121-134 | totals over sheets that each add at most one group add at most one group per sheet |
| SheetGroup.Workbook | src/core/importers/sheetGroup.ts:121-134 | one document per stage, starting with the given one, and one count per sheet |
| SheetGroup.WorkbookStep | src/core/importers/sheetGroup.ts:122-133 | one more sheet extends the stages by the import of that sheet into the last document |
| SheetGroup.WorkbookAt | src/core/importers/sheetGroup.ts:122-133 | sheet `k` is imported, with its own downloads, into the document the sheets before it left |
| SheetGroup.WorkbookInOrder | src/core/importers/sheetGroup.ts:122-133 | every sheet is imported, in order, into the document the sheets before it left |
| SheetGroup.WorkbookCounts | src/core/importers/sheetGroup.ts:122-133 | every sheet adds at most one group and counts each of its valid items once |
| SheetGroup.WorkbookGroupsBounded | src/core/importers/sheetGroup.ts:121-134 | a workbook adds at most one group per sheet |
| SheetGroup.ImportWorkbookGroups | src/core/importers/sheetGroup.ts:115-135 | the documents after each sheet are those of Workbook, each sheet imported in order into the document the sheets before it left. The store ends with the last one. The total is the sum of the per-sheet counts, with at most one group per sheet |
| AdminFlow.Fields | src/index.ts:335 | at least one field, none containing `\|` |
| AdminFlow.FieldsOfJoin | src/index.ts:335 | clean fields joined by `\|` split back into themselves |
| AdminFlow.KindOf | src/index.ts:338-340 | a kind exactly when the lower-cased type is `callback` or `url` |
| AdminFlow.KindWordsAnyCase | src/index.ts:338-340 | for every typed word, upper-casing or lower-casing it does not change its kind, so the type words are recognised in any letter case; which words are types at all is KindOf's own iff |
| AdminFlow.KindWordSpellings | src/index.ts:338-340 | these five spellings: `callback`, `CallBack`, `url` and `URL` are types, `link` is not |
| AdminFlow.ParseAddLine | src/index.ts:334-351 | a missing field exactly when one of the five is absent or empty; an unknown kind exactly when the type is neither word; otherwise the button built from the fields |
| AdminFlow.AddLineRoundTrip | src/index.ts:334-351 | a line written as the prompt asks parses into its button |
| AdminFlow.ParseResponse | src/index.ts:461-467 | a pair exactly when the first field and the trimmed rejoined rest are both non-empty. The payload is the first field and holds no `\|`. The answer is the other fields rejoined by `\|` and trimmed, so it neither starts nor ends with white space |
| AdminFlow.ResponseOfFields | src/index.ts:461-467 | clean fields joined by `\|` give the first as payload and all the others, rejoined by `\|`, as the answer, so a `\|` inside the answer is kept |
| AdminFlow.SplitSpacedPair | src/index.ts:461 | `payload \| answer` splits into the two spaced pieces |
| AdminFlow.TrimSpaced | src/index.ts:461 | a clean field with a space on either side trims back to itself |
| AdminFlow.FieldsOfSpacedPair | src/index.ts:461 | the fields of `payload \| answer` are the payload and the answer |
| AdminFlow.ResponseRoundTrip | src/index.ts:461-471 | `payload \| answer`, spaced as the prompt shows it, parses back into the pair |
| AdminFlow.ResponseNeedsAnswer | src/index.ts:463-467 | a line without `\|` stores nothing |
| AdminFlow.EditButton | src/index.ts:405-441 | an accepted edit changes only the field it names: the id, label and chapter are kept unless named, the item details always; a new id belongs to no other button |
| AdminFlow.EditRefusals | src/index.ts:405-441 | each refusal (a taken id, an unknown type, a payload on a url button, a url on a callback button, an unknown key) happens exactly under its condition, before any field is written |
| AdminFlow.TypeChange | src/index.ts:412-424 | to callback drops the url and keeps a non-empty payload, otherwise `""`; to url drops the payload and defaults the url to `https://` |
| AdminFlow.EditKeepsUniqueIds | src/index.ts:405-441 | an accepted edit keeps button ids unique |
| AdminFlow.MessageStep | src/index.ts:325-479 | only the welcome and response steps request a store call, and they end the dialog; a step keeps the session, ends the dialog, or moves the edit dialog on; only the add, delete and edit-value steps touch the buttons |
| AdminFlow.AddDialog | src/index.ts:334-358 | a wrong add line keeps the mode and the buttons; a valid one upserts its button and returns to idle |
| AdminFlow.AddDialogAccepts | src/index.ts:334-358 | a line written as the prompt asks upserts exactly its button and returns to idle |
| AdminFlow.DeleteDialog | src/index.ts:358-366 | the delete step removes exactly the buttons with the typed id, ends the dialog and names the id; an unknown id removes nothing |
| AdminFlow.EditDialogFirstSteps | src/index.ts:371-392 | an unknown id keeps asking. A known id is remembered and the key is asked. Any key text is remembered and the value is asked |
| AdminFlow.EditDialogValueStep | src/index.ts:394-442 | a vanished button ends the dialog without changes. A refused edit keeps the mode and the buttons. An accepted one writes the button at its index and returns to idle |
| AdminFlow.WelcomeDialog | src/index.ts:445-452 | the welcome step requests the trimmed text as greeting, keeps the buttons and ends the dialog |
| AdminFlow.ResponseDialog | src/index.ts:454-475 | without a payload or an answer nothing is requested and the mode stays; otherwise the pair is requested and the dialog returns to idle |
| AdminFlow.DialogTouchesButtonsOnlyWhenAsked | src/index.ts:325-479 | the id, key, welcome and response steps never change the buttons, and an idle session ignores text |
| AdminFlow.JoinStartsWithFirst | src/index.ts:204-206 | a join begins with its first element |
| AdminFlow.ListText | src/index.ts:203-208 | the empty-list text exactly when there are no buttons; otherwise the text begins with the first button's line |
| AdminFlow.CallbackStep | src/index.ts:157-250 | absent or empty data changes nothing; a non-administrator's press changes no session; no other user's session ever changes |
| AdminFlow.MenuPressEntersMode | src/index.ts:173-219 | an administrator's press of a dialog action enters that action's mode and changes no other session |
| AdminFlow.PanelAndBackReset | src/index.ts:161-224 | `ADMIN` and `ADM_BACK_TO_MAIN` reset an administrator's session to idle |
| AdminFlow.OtherMenuPressKeepsSessions | src/index.ts:203-228 | after the list action or an unknown `ADM_` action, every user's session reads as before; at most an idle session is stored for the presser |
| AdminFlow.PressesThatKeepSessions | src/index.ts:157-250 | a press by a non-administrator never changes a session; any other data outside the admin menu changes no session and is answered by the entry file's router |
| AdminFlow.SetWelcomeCommand | src/index.ts:483-492 | `/setwelcome` requests exactly a non-empty text as the greeting and changes nothing itself |
| AdminFlow.SetResponseCommand | src/index.ts:495-507 | `/setresponse` requests a response exactly when the argument parses as the dialog's line |
| AdminFlow.NonEmptyFields | src/index.ts:552 | no field left after `.filter(Boolean)` is empty |
| AdminFlow.AddButtonCommand | src/index.ts:510-583 | `/addbtn_*` changes only the buttons. Three or four non-empty fields always add: the reply names the id, and the button they describe is upserted. Any other argument changes nothing |
| AdminFlow.AddButtonFields | src/index.ts:514-531 | three clean fields give a button in `MAIN`; four give one in the third field's chapter |
| AdminFlow.RenameButtonCommand | src/index.ts:586-600 | `/renamebtn` requests a rename exactly when both the id and the new label are non-empty |
| AdminFlow.DeleteButtonCommand | src/index.ts:603-611 | `/delbtn` changes only the buttons: no button with the id remains, and every other button stays |
| AdminFlow.AddAdminCommand | src/index.ts:615-643 | `/addadmin` changes only the administrator list. A target that is non-zero and not a super user is always added, with the reply naming it. A missing or zero target, or a super user, changes nothing |
| AdminFlow.DeleteAdminCommand | src/index.ts:646-660 | `/deladmin` changes only the administrator list. A missing or non-numeric argument, or a super user, changes nothing. Any other numeric id is removed, with the reply naming it |
| AdminFlow.CommandStep | src/index.ts:483-660 | outside a private chat nothing happens; a super-user command from anyone else is refused; any other command from a non-administrator is refused; no command changes the super users, the texts, the responses or the parent links |
| AdminFlow.CommandsTouchOneList | src/index.ts:483-660 | each command changes at most one list of the document: the buttons or the administrators |
| AdminFlow.UnauthorisedCommandsDoNothing | src/index.ts:483-660 | outside a private chat, or from a user without the needed rights, a command changes and requests nothing |
| AdminFlow.SuperUsersProtected | src/index.ts:636-656 | the administrator commands never list a super user as administrator, and deleting a super user changes nothing |
| AdminFlow.ArgOfTyped | src/index.ts:497 | the argument of `/<command> <argument>` is the argument |
| AdminFlow.JoinOfCleanIsTrimmed | src/index.ts:514 | clean fields joined by `\|` give non-empty text with no white space at its ends |
| AdminFlow.AuthorisedCommandRuns | src/index.ts:483-660 | an authorised command in a private chat runs unguarded |
| AdminFlow.SetResponseCommandRoundTrip | src/index.ts:495-507 | `/setresponse payload \| answer` from an administrator requests exactly that pair |
| AdminFlow.AddUrlLineRuns | src/index.ts:548-551 | `/addbtn_url` with a trimmed argument, from an administrator in a private chat, runs the add-button command on that argument |
| AdminFlow.AddButtonThreeFields | src/index.ts:552-576 | three clean fields add a button in `MAIN` with the first as id, the second as label and the third as url |
| AdminFlow.AddUrlButtonCommand | src/index.ts:548-583 | `/addbtn_url id \| label \| url` from an administrator upserts that url button in `MAIN` |
| AdminFlow.AdminBot.constructor | src/index.ts:31 | the entry file starts with no sessions over the given store |
| AdminFlow.AdminBot.GetSession | src/index.ts:33-39 | returns the stored session, or stores and returns a fresh idle one |
| AdminFlow.AdminBot.ResetSession | src/index.ts:41-43 | stores a fresh idle session for the user |
| AdminFlow.AdminBot.OnCallback | src/index.ts:157-250 | the new sessions and the reply are those of CallbackStep |
| AdminFlow.AdminBot.OnMessage | src/index.ts:325-479 | ignored outside a private chat and for non-administrators; otherwise the new session, buttons, request and reply are those of MessageStep |
| AdminFlow.AdminBot.OnCommand | src/index.ts:483-660 | the new document, the request and the reply are those of CommandStep |

## Left out

- Loading and saving the configuration file (`src/core/config/configStore.ts:33-46`) and the `save` at the end of an import. The store is modelled in memory only.
- The network downloads of a sheet. Each attempt's outcome (failure, or the downloaded text) is a parameter of `Sheets.LoadSheetAsRows`, `Sheets.LoadIphonesFromSheet` and the import methods. The Google API client in `src/core/importers/listSheets.ts` is not part of this model.
- The JavaScript `Number` conversion of prices (`toNumber` in `src/core/sheets.ts:65-74`, `num` in `src/core/utils/helper.ts:4-8`). It is floating point, so prices stay optional text: the item mapper takes the conversion as a function parameter. In the source an imported price is never blank, since `toNumber(cell) ?? 0` gives at least `0`; the parameter is not constrained to that, so the model also admits a blank price.
- AdminFlow.AddAdminCommand and AdminFlow.DeleteAdminCommand: `Number(arg)` on the typed id is a parameter (`argValue`), with `None` for a non-number. Fractional or infinite values are not modelled.
- Unicode NFKD normalisation in `toCode` and the full Unicode case tables are not modelled. `Text.UpperChar` and `Text.LowerChar` map the ASCII letters, the Latin-1 letters U+00C0–U+00DE and U+00E0–U+00FE, the letter pairs of U+0100–U+012F and the basic Cyrillic block, and leave every other character as it is.
- Format.ToCapitalize: exact for text in those ranges except `ß`, `ÿ` and `µ`, which JavaScript upper-cases to `SS`, `Ÿ` and `Μ` and the model leaves as they are.
- Format.ToCode: exact for ASCII text, and for Cyrillic, which the `\w` filter drops either way. A letter that NFKD splits into an ASCII letter and a mark loses its letter in the model: `Café` gives `CAF` where JavaScript gives `CAFE`.
- Telegram transport: replies, alerts, `answerCbQuery`, Markdown and keyboard markup. Replies are tags, and keyboards are rows of keys.
- `setWelcome`, `setResponse` and `renameButton` are called from `src/index.ts:447,471,594` but are not defined in `ConfigStore`. The dialog and the commands emit a `StoreRequest` naming the call and its arguments; the store is not changed by it.
- The `bot.action('ADM_*')` handlers in `src/index.ts:254-323` are not modelled. The earlier `callback_query` handler answers every callback without passing it on, so they never run.
- The commands in `src/index.ts:483-660` are registered after the `message` handler, which never passes a message on. In the running bot they are therefore shadowed. They are modelled as written, on their own.
- `/whoami`, `/help`, `/start` and `/menu` (`src/index.ts:94-154`) only send replies and are not modelled.
- The anti-spam middleware's asynchronous interleaving. Entering and finishing are separate sequential steps with times supplied by the caller, and the handler's own effect is not modelled.
- The edit handler mutates the button object in place (`src/index.ts:409-435`). The model writes the edited button back at its index, so aliasing of that object elsewhere is not captured.
- The legacy duplicate types in `src/types.ts` and the declaration files are not part of this model.
- AdminFlow.ListText: states the empty case and the first line, not the whole joined text.
- Sheets.ToInt: reads the digits as an unbounded integer. JavaScript's `Number` rounds values above 2^53, so the two differ for longer digit runs.
- `src/index.ts:3` imports `./configStore.js`, which is not part of this model. The model uses the `ConfigStore` of `src/core/config/configStore.ts`, whose `addButton` replaces a button with a known id. A strict add that throws on a known id would make `src/index.ts:341-353`, `537-543` and `575-581` reply with the error text, store nothing and keep the session; that path is not modelled.
- Responses.Route and Responses.LegacyRoute: a key is a stored response exactly when the map holds it. JavaScript's `cfg.responses[data]` also finds keys the object inherits, such as `constructor` or `toString`; those are not modelled.

## Findings

| source | as written | input that shows it | evidently intended | confidence | as-written member | corrected member |
|---|---|---|---|---|---|---|
| src/core/utils/format.ts:17 | the placeholder for a missing price is stored as UTF-8 bytes re-read as Windows-1254, a string of Latin letters | `formatPrice(undefined)` | the Cyrillic `уточняйте` that `src/core/utils/helper.ts` uses for the same case | not executed | Format.FormatPriceAsWritten | Format.FormatPrice |
| src/core/utils/format.ts:24-29 | the product labels are stored in the same garbled form, so the emoji are lost | `prettyProductLabel('IPHONES')` | the emoji labels, for example `📱 iPhones` | not executed | Format.PrettyProductLabelAsWritten | Format.PrettyProductLabel |
