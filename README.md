# tg_bot_gsheet_sync: a verified model of the bot's core

The bot lets allow-listed Telegram users edit "place cards". A place card is a row of a
Google Sheet with the columns name, type, photos, google_map, phone_numbers, Whatsapp,
hours_of_operation and ID. The user finds a card by name, or the bot creates a new one. The
user then picks fields, types new values (each checked by a validator, and phone numbers are
normalised), uploads photos, and saves. Saving writes the card back to its sheet row. It then
sends a MarkdownV2 message to every notification recipient listing the fields that changed.

This project models that core in Dafny and proves properties of it:

- `validators.dfy` (module `Validators`) covers the field validators and the phone rewrite.
  Each is a predicate or function, and lemmas state what it accepts.
- `session.dfy` (module `EditSession`) covers the per-user edit session. `Session` is a class
  with the fields `card`, `fieldToUpdate` and `photosReceived`, and each handler of the bot is
  a method that updates them.
- `notification.dfy` (module `Notification`) covers the change notifier:
  - escaping is a set of functions with lemmas;
  - the field diff, its rendering and the message text are specification functions;
  - `SendNotification` runs the notifier's two loops, as the methods `CollectChanges` and
    `SendToRecipients`, and is proved equal to the specification function `Notify`.
- `sheets.dfy` (module `Sheets`) covers the sheet adapter:
  - the find-or-create search over a table value;
  - class `Sheet`, whose `Write` method locates, merges or appends one row in place;
  - the A1 range string.
- `unit_card.dfy` (module `UnitCards`) covers the `UnitCard` record and its `to_dict` export.
- `telegram_user.dfy` (module `TelegramUsers`) covers the allow-list check.
- `dict.dfy`, `strings.dfy` and `wrappers.dfy` are helpers:
  - Python's insertion-ordered dict as a sequence of distinct-key entries;
  - decimal rendering of numbers, `str.join` and ASCII lower-casing;
  - the `Option` and `Result` datatypes.

Inputs the bot gets from outside become parameters:

- the allow-lists `id_list` and `id_notification_list` are sequences of ids;
- the Bot API's reply to each notification is a function `deliver` from the chat id and the
  message text to a `Response` (status, JSON body, text body);
- the Drive upload is a function from the folder name and the photo paths to the folder link,
  or `None` for a failure;
- success or failure of a Sheets API call is a boolean `serviceUp`.

Characters are Unicode code points. `str.isdigit`, `\s` and `str.lower` are modelled on ASCII
only: the model assumes that typed phone numbers, names and commands use ASCII digits,
whitespace and letters, plus the Cyrillic ranges that the name pattern lists. For `\s` this is
every ASCII character a str pattern's `\s` matches: space, `\t \n \v \f \r` and the separators
U+001C..U+001F.

Where the code and its documentation disagree, the model follows the code:

- Python's `$` also matches just before a final newline. So `validate_name` and
  `validate_google_maps` accept one trailing `"\n"` (`ValidNameIff`, `ValidGoogleMapsIff`).
- `validate_photos([])` is `True`, since `all` of nothing is true (`ValidPhotosEdges`).
- `handle_new_value` is registered for text messages only. A text carries no photo, so the
  `photos` field rejects every typed value (`StoredValue`).
- There is no special case for a row that was just inserted. Saving the same card twice
  updates the row written the first time (`WrittenRowFound`), for an ID that the sheet reads
  back as text, such as the `№…` IDs the bot mints (see "## Left out").
- `write_on_google_sheets` returns `False`, not `None`, on an error. `handle_save` tests only
  `send != None`, so a failed write still calls the notifier (which then raises `TypeError`)
  and clears the session (`Session.HandleSave`). See "## Findings".
- In `handle_new_value`, `current_row` and `user_data["current_card"]` are the same dict. The
  two assignments to it are therefore one `Put`.

## Model

| member | source | states |
|---|---|---|
| Validators.ValidName | bot/telegram_bot.py:67 | Definition: `re.match` of the name pattern, a run of class characters up to `$`; properties in ValidNameIff. |
| Validators.ValidNameIff | bot/telegram_bot.py:67 | A name is accepted iff it is non-empty and every character is an ASCII letter, a Cyrillic а-я/А-Я letter, whitespace or an apostrophe. |
| Validators.SeparatorInName | bot/telegram_bot.py:67 | "a", U+001C, "b" is a valid name, since `\s` matches the separator. |
| Validators.ValidType | bot/telegram_bot.py:79-80 | Definition: a type is valid iff it is one of "Places to eat", "Adventures", "Services". |
| Validators.ValidPhotos | bot/telegram_bot.py:92-94 | Definition: a list whose every item has a file_id; properties in ValidPhotosEdges. |
| Validators.ValidPhotosEdges | bot/telegram_bot.py:92-94 | The empty photo list is accepted, and any object that is not a list is rejected. |
| Validators.ValidGoogleMaps | bot/telegram_bot.py:106 | Definition: the short-link prefix, then a run of ASCII letters and digits up to `$`; properties in ValidGoogleMapsIff and ShortLinkAccepted. |
| Validators.ValidGoogleMapsIff | bot/telegram_bot.py:106 | A link is accepted iff it is the short-link prefix followed by one or more ASCII letters or digits, with at most one final newline. |
| Validators.ShortLinkAccepted | bot/telegram_bot.py:106 | For an identifier without a newline, prefix plus identifier is accepted iff the identifier is a non-empty run of ASCII letters and digits. |
| Validators.Digits | bot/telegram_bot.py:492 | The digit filter yields only digits and is never longer than its input. |
| Validators.NormalizePhone | bot/telegram_bot.py:492-499 | Definition: the digits, with "+506" before eight of them, "+" before eleven starting with 506, bare otherwise; properties in NormalizePhoneDigits, NormalizePhonePlus and NormalizePhoneIdempotent. |
| Validators.NormalizePhoneDigits | bot/telegram_bot.py:492-499 | The rewrite keeps every digit of the input and adds the country code 506 only to an eight-digit number. |
| Validators.NormalizePhonePlus | bot/telegram_bot.py:493-498 | The result starts with '+' iff the input has eight digits, or eleven digits starting with 506. |
| Validators.NormalizePhoneIdempotent | bot/telegram_bot.py:492-499 | Normalising an already normalised number changes nothing. |
| Validators.NormalizeLocalNumber | bot/telegram_bot.py:493-494 | The local number 88887777 becomes +50688887777. |
| Validators.NormalizeShortNumber | bot/telegram_bot.py:497-498 | A number of another length, such as 12-34, stays as its bare digits 1234. |
| EditSession.StoredValue | bot/telegram_bot.py:431-508 | Definition: the value handle_new_value stores for a typed text, or None when the field's validator rejects it; properties in StoredValueMeaning. |
| EditSession.StoredValueMeaning | bot/telegram_bot.py:431-508 | A typed value is stored iff the field is not photos and the value passes that field's validator. It is stored as typed, except that phone and WhatsApp fields store the normalised number, a fixpoint of normalisation. |
| EditSession.ShowCommandIgnoresCase | bot/telegram_bot.py:420 | "Show Information" lower-cases to the show command. |
| EditSession.FailedWriteNotifies | bot/telegram_bot.py:395-401 | When a failed write's False is handed to the notifier, the notifier raises TypeError for every card. |
| EditSession.Session.constructor | bot/telegram_bot.py:262 | A new session has no card, no selected field and no photo list. |
| EditSession.Session.Start | bot/telegram_bot.py:108-142 | The reply is the menu greeting iff the user id is allow-listed, and the refusal otherwise. |
| EditSession.Session.HandleCompanyName | bot/telegram_bot.py:249-262 | An invalid name, or a table without the card columns, leaves the session unchanged. Otherwise the card found or created is installed only if the session has no card yet. |
| EditSession.Session.Button | bot/telegram_bot.py:541-558 | A category sets the card's type and clears the selected field (nothing happens without a card). Any other button selects its field only if none is selected yet. |
| EditSession.Session.HandleNewValue | bot/telegram_bot.py:420-528 | An accepted value replaces the selected field, clears the selection and leaves every other field as it was. The show command, a missing card or field, a field not in the card, or a rejected value leave the card and the selection unchanged. |
| EditSession.Session.PhotoHandler | bot/telegram_bot.py:610 | The photo path is appended to the received list, which is created if absent. |
| EditSession.Session.FinishPhoto | bot/telegram_bot.py:632-649 | A successful upload stores the folder link in photos and empties the list. A failed upload, or a missing card or list, changes nothing. |
| EditSession.Session.HandleExit | bot/telegram_bot.py:363 | The whole session is cleared. |
| EditSession.Session.HandleSave | bot/telegram_bot.py:388-403 | With a card, this writes it to the sheet, returns the notifier's result for the write's returned snapshot (None for False) and clears the session, even after a failed write. Without a card, nothing changes. |
| EditSession.Session.HandleSaveChecked | bot/telegram_bot.py:395-406 | A failed write keeps the session and skips the notifier. A successful one notifies and clears the session. |
| Notification.Escape | models/notification.py:33-34 | Definition: a backslash before each special character; properties in EscapeLength, EscapePlain, EscapeAppend and UnescapeEscape. |
| Notification.EscapeLength | models/notification.py:33-34 | The escaped text is longer than the input by exactly the number of special characters. |
| Notification.EscapePlain | models/notification.py:33-34 | Escaping a text with no special character returns it unchanged. |
| Notification.EscapeAppend | models/notification.py:34 | Escaping distributes over concatenation. |
| Notification.UnescapeEscape | models/notification.py:33-34 | Removing the escapes recovers the input. |
| Notification.Changes | models/notification.py:60-67 | Definition: the changes of the card entries in card order; properties in ChangesSound, ChangesComplete and ChangesOrdered. |
| Notification.ChangesSound | models/notification.py:60-67 | Every reported change has a key of the new card that is present in the old snapshot with a different value, and records old and new values from the two. |
| Notification.ChangesComplete | models/notification.py:60-67 | Every key of the new card that is in the old snapshot with a different value is reported. |
| Notification.ChangesOrdered | models/notification.py:60-70 | Changes appear in the card's key order, each key at most once. |
| Notification.Lines | models/notification.py:68-71 | One line per change, numbered consecutively from 1. |
| Notification.Render | models/notification.py:68-71 | Definition: the lines joined by newlines; properties in RenderEmpty, RenderSingle and OneChangeRendered. |
| Notification.RenderEmpty | models/notification.py:68-71 | The rendered change list is empty iff there are no changes. |
| Notification.OneChangePerKey | models/notification.py:64-67 | Changes in card order that all name one key are at most one. |
| Notification.RenderSingle | models/notification.py:68-71 | A single change renders as the line "1. key: old -> new". |
| Notification.OneChangeRendered | models/notification.py:60-71 | For any card with distinct keys that differs from the snapshot in exactly one shared field k, the diff is exactly the one change of k (old value from the snapshot, new value from the card) and renders as "1. k: old -> new". |
| Notification.MessageText | models/notification.py:85-101 | Definition: "*From:* first last\n*Name:* name\n*Changes:*\nchanges" with each part escaped, or "No new updates." for an empty card. |
| Notification.Notify | models/notification.py:36-120 | Definition: the raised failure, or one outcome per recipient for the same text; properties in NotifyPerRecipient. |
| Notification.NotifyPerRecipient | models/notification.py:84-120 | The notifier fails iff the payload is non-empty with no old snapshot, or there are recipients and the old name is missing or None. Otherwise it returns one outcome per recipient, in order, each being what the Bot API returned for the same text. |
| Notification.CollectChanges | models/notification.py:54-80 | The diff loop raises TypeError iff the card is non-empty while the snapshot is not a dict. Otherwise it yields the rendered diff of the card against the snapshot. |
| Notification.SendToRecipients | models/notification.py:82-120 | The recipients loop raises iff there is a recipient and the snapshot's name is missing or None. Otherwise it gives one outcome per recipient, in order: the response data for status 200 and {status, error} otherwise, all for the same text. |
| Notification.SendNotification | models/notification.py:36-120 | The diff loop followed by the recipients loop returns exactly Notify. |
| Sheets.FirstWhere | models/google_services.py:200-207 | Finds the first row satisfying the test, or reports that none does. |
| Sheets.MintedIdInjective | models/google_services.py:156 | Tables of different sizes mint different IDs. |
| Sheets.SearchName | models/google_services.py:146-174 | A found or created card has exactly the eight card columns, in order. |
| Sheets.SearchFindsFirst | models/google_services.py:147-174 | When some row has the exact name, the result is the first such row projected onto the card columns, with created false. |
| Sheets.SearchCreates | models/google_services.py:148-159 | With no row of that name, the result has that name and the ID "№" followed by the row count plus 310, every other column None, and created true. |
| Sheets.SearchFails | models/google_services.py:161-172 | A table missing one of the projected columns raises (here, an error). |
| Sheets.Trim | models/google_services.py:211 | A trimmed row has no trailing empty cell and reads the same in every column. |
| Sheets.TargetRow | models/google_services.py:200-207 | Definition: the first data row whose ID cell equals the organization's ID; used by WriteOutcome, properties in WrittenRowFound. |
| Sheets.UpdateValues | models/google_services.py:213-218 | Definition: per header, the organization's value or the current cell; properties in UpdateCells. |
| Sheets.InsertValues | models/google_services.py:231 | Definition: per header, the organization's value or ""; used by WriteOutcome and InsertedRowFound. |
| Sheets.UpdateCells | models/google_services.py:213-218 | Each header cell becomes the organization's value when the key is present. Otherwise it keeps the current cell, or "" past the row's end. |
| Sheets.Prior | models/google_services.py:228 | The returned old snapshot has as many entries as the shorter of the headers and the current row. |
| Sheets.WriteBackPrior | models/google_services.py:228 | The returned old snapshot pairs each header with its old cell, truncated to the shorter of the two, and writing it back restores the row. |
| Sheets.RangeFor | models/google_services.py:222-236 | Definition: "A{row}:{chr(64 + width)}{row}"; properties in RangeForParses. |
| Sheets.RangeForParses | models/google_services.py:222-236 | For 1 to 26 columns, the range string "A{row}:{column letter}{row}" parses back to the same row on both sides and to the width as the column letter. |
| Sheets.WriteRangeCoversRow | models/google_services.py:209-236 | The range a write sends exists iff there are 1 to 26 headers, and then it names exactly the matching data row (numbered from 2), or the row after the data, across every header. |
| Sheets.WriteOutcome | models/google_services.py:196-247 | The write fails iff the service fails or the range it sends has no column letter (a width outside 1..26), and a failure leaves the rows unchanged. |
| Sheets.WrittenRowFound | models/google_services.py:200-243 | After a successful write of an organization with a non-empty ID, a second search for that ID finds the row just written. |
| Sheets.Sheet.constructor | models/google_services.py:197 | A new sheet has the given headers and no data rows. |
| Sheets.Sheet.Write | models/google_services.py:176-247 | The write updates the rows and returns the result WriteOutcome states, keeping the headers and the sheet's invariant. |
| TelegramUsers.NewUser | models/telegram_user.py:13-22 | The user holds the given id and role, and the role defaults to "Data Manager". |
| TelegramUsers.Auth | models/telegram_user.py:24-38 | A user is returned iff the id is in the allow-list, and that user has the given id and the role "Data Manager". |
| UnitCards.ToDict | core/model.py:25-52 | The nine conditional assignments build a dict holding each key of EXPORT_KEYS whose attribute is set, with that value, and its keys are those present keys in the order of EXPORT_KEYS (PresentKeys). |
| UnitCards.ExportsMeaning | core/model.py:33-50 | Each renamed key appears iff its attribute is non-empty, with that value. Location appears iff the manager's phone is non-empty, with the location value. No other key appears, and a default card exports nothing. |

## Findings

| source | as written | input that shows it | evidently intended | confidence | as-written member | corrected member |
|---|---|---|---|---|---|---|
| bot/telegram_bot.py:395 | `if send != None` is true for the `False` that `write_on_google_sheets` returns on a Sheets error. The notifier is then called (and raises `TypeError`), and the session is cleared, so the user's edits are lost. | Any save while the Sheets API call raises (`serviceUp` false) | The docstrings say only a returned dict leads to a notification, and an error is only logged. So a failed write should keep the session. | medium, not executed | EditSession.Session.HandleSave with EditSession.FailedWriteNotifies | EditSession.Session.HandleSaveChecked |

## Left out

- Telegram transport is not modelled: keyboards, replies, `show_place_card`, `show_editbar`, `add_company`, `add_photo`, handler registration and polling in `start_bot`. These only send messages. Each handler of the session is a method, called directly.
- `current_card_id` is a field shared by every user. It is written but never read, so the model keeps per-user state only.
- `handle_location`, `show_unfilled_places` and `button_handler` only echo values or show menus.
- The Google API plumbing is not modelled: credentials, client building, `read_from_google_sheets` and the Drive calls of `GoogleDrive` and models/google_drive.py. The upload is a parameter, and the sheet is a `Sheet` object.
- `GoogleMap` is not modelled: it issues an HTTP request and parses floating-point coordinates.
- models/place_card.py, the ORM mapping in core/model.py, run.py and logging are not part of this model.
- async/await is not modelled: the handlers run one at a time.
- The aiohttp connection is replaced by `deliver`. Exceptions raised by the connection itself are not modelled.
- Sheets.Sheet.Write: the row match compares the raw text of the ID cell. `get_all_records` in `write_on_google_sheets` turns number-like cells into numbers before `str()` compares them, so an ID cell such as "007" or "1.50" reads as "7" or "1.5", the source finds no match and appends a new row where the model updates. The `№…` IDs the bot mints are never converted, and WrittenRowFound describes the source only for such IDs.
- Sheets.Sheet.Write: a sheet with repeated header names is not modelled (`Valid` requires distinct headers). The width of a data row never exceeds the header row. The range column is taken to make the API fail whenever the width is outside 1..26. A `None` value in the organization is skipped by the API and keeps the cell.
- Validators.ValidNameIff: whitespace outside ASCII that `\s` also matches (U+0085, U+00A0, U+1680, U+2000..U+200A, U+2028, U+2029, U+202F, U+205F, U+3000) is not in the class, so names containing it are rejected by the model.
- Sheets.SearchFails: the error does not name which column was missing.
- Notification.SendNotification: the `except` around the comparison at models/notification.py:62-80 never fires for string values, so it is not modelled.
- TelegramUsers.Auth: `TelegramUser` is a value (`TelegramUser` datatype), not an object, because nothing updates it after construction.
- EditSession.Session.HandleNewValue: the exception text shown on a `KeyError` is not modelled, only that the session is unchanged.
