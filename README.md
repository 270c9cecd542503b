# Bookkeeping store of a Telegram download bot

The bot keeps all of its durable state in one JSON file, `bot_data.json`:
a `users` dictionary keyed by `str(user_id)` whose records hold
`first_seen`, `lang` and `download_count`; a `system` object with the
version and start date; and `global_stats` with the `ar_downloads` and
`en_downloads` counters. Every handler loads the whole document; those
that change it (`set_user_lang` and the download bookkeeping) write the
whole document back.

This project models that store in Dafny:

- `wrappers.dfy`: `Option`, used for absent JSON keys and for a missing file.
- `decimal.dfy`: `str(n)` on integers (the user key), with its read-back
  and injectivity.
- `callback_data.dfy`: `str.split("_")` with its inverse `join`, and the
  language taken from a button's callback data `"lang_xx"`.
- `bot_data.dfy`: the document as datatypes and the pure transitions:
  `load_data` with its repair of a missing `global_stats`, `get_user_lang`,
  `set_user_lang`, `/start` registration, the download bookkeeping, the
  `/stats` totals and the `/userinfo` lookup, with the lemmas about them.
- `bot_file.dfy`: class `DataFile`, whose field `contents` is the file
  (`None` when it does not exist or its text is not valid JSON). Its methods are the
  handlers' load–change–save sequences. The methods that only read have
  no `modifies` clause.

Behaviours of the code that the model keeps and proves:

- A download by a user with no record in `users` still counts in a global
  counter. Such a user may never have used `/start`, or may have had a
  record that a reset of a corrupt file (main.py:105-117) removed; pressing
  a `lang_` button registers a user just as `/start` does
  (main.py:167-168). The language read for a user with no record is "en",
  so `en_downloads` goes up, but no record is created and no user count
  changes.
  `BotData.DownloadCanUnbalance` proves that the sum of user counts then
  stops matching `ar_downloads + en_downloads`.
- A stored language other than "ar" or "en" (callback data such as
  `lang_fr`) is saved, but every later `/help` and every later download by
  that user fails at the `TEXTS[lang]` lookup (main.py:160, main.py:183)
  until the user picks "en" or "ar" again. The download bookkeeping
  therefore only ever runs with "ar" or "en", which is the precondition of
  `BotFile.DataFile.RecordDownload`.
- The counter updates of one download are saved together or not at all.
  If the user's record lacks `download_count`, the increment raises, the
  handler's `except` catches it and nothing is saved. In that case the
  global increment is lost as well.

## Model

| member | source | states |
|---|---|---|
| `BotData.Load` | main.py:96-117 | A file that does not exist or whose text is not valid JSON (`None`) gives empty users, version "3.1", start date `now` and zeroed counters. A file without `global_stats` gets zeroed counters and keeps its users and system. Any other file is returned unchanged. |
| `BotData.LoadSaved` | main.py:96-122 | Loading a saved load result gives it back, at any later time: the repair happens at most once. |
| `Decimal.Str` | main.py:132 | `str(n)` is non-empty and starts with `-` exactly when `n` is negative. |
| `BotData.Key` | main.py:132 | Two user ids with the same key `str(user_id)` are the same id. |
| `Decimal.Digits` | main.py:132 | The decimal digits are non-empty, all `0`–`9`, have no leading zero, and are one character exactly when the number is below 10. |
| `Decimal.ValueOfDigits` | main.py:132 | Reading back the digits of `n` gives `n`. |
| `Decimal.StrInjective` | main.py:132 | `str` is injective on integers, including negative ones. |
| `BotData.LangOf` | main.py:124-127 | The stored language for a known user that has one; "en" for an unknown user or a record without `lang`. |
| `BotFile.DataFile.GetUserLang` | main.py:124-127 | Returns the loaded document's language for `str(user_id)`; the file is not modified. |
| `BotData.WithLang` | main.py:129-140 | An unknown user gets exactly one new record with the language, count 0 and `first_seen = now`. A known user's record changes in its `lang` only, which becomes the given language. The language reads back as the given one in both cases. Other records, `system` and `global_stats` are unchanged, and the key set grows by this key only. |
| `BotData.LangOfOthers` | main.py:129-140 | Setting the language of one user id leaves the language of every other user id as it was (distinct ids have distinct keys). |
| `BotFile.DataFile.SetUserLang` | main.py:129-140 | The new file content is `WithLang` applied to the loaded document. |
| `BotData.Registered` | main.py:146 | After `/start` the user is known. |
| `BotData.RegisterUnknown` | main.py:146 | `/start` by an unknown user adds exactly one record with language "en", count 0 and `first_seen = now`. Nothing else changes. |
| `BotData.RegisterKnown` | main.py:146 | `/start` by a known user with a stored language leaves the document exactly as it was. |
| `BotData.RegisterIdempotent` | main.py:146 | A second `/start`, at any time, changes nothing. |
| `BotData.StartTwice` | main.py:143-146 | After a saved `/start`, loading and registering the same user again writes back the same document. |
| `BotFile.DataFile.Start` | main.py:143-146 | The new file content is the loaded document with the user registered under their current language. |
| `CallbackData.Split` | main.py:167 | `split("_")` returns at least one field. No field contains the separator. There are two or more fields exactly when the separator occurs. |
| `CallbackData.JoinSplit` | main.py:167 | Joining the fields of a split with the separator gives back the string. |
| `CallbackData.SplitJoin` | main.py:167 | Splitting a join of separator-free fields gives back the fields. |
| `CallbackData.SplitAfter` | main.py:167 | A separator-free field followed by the separator splits off as the first field. |
| `CallbackData.SplitNoSeparator` | main.py:167 | A string without the separator splits into itself alone. |
| `CallbackData.SplitFirst` | main.py:167 | The first field is the longest prefix free of the separator. |
| `CallbackData.LangFromCallback` | main.py:348 | Data is handled exactly when it starts with `lang_`. The language is then the text after `lang_` up to the next `_` or the end, and contains no `_`. |
| `CallbackData.CallbackRoundTrip` | main.py:167 | The data `"lang_" + code` yields `code` for any code without `_`. |
| `CallbackData.ButtonsSelectTheirLanguage` | main.py:148-149 | The two buttons' data `lang_en` and `lang_ar` select "en" and "ar". |
| `BotFile.DataFile.SelectLanguage` | main.py:162-168 | Unmatched data changes nothing. Matched data stores the parsed language with `set_user_lang`. |
| `BotData.Counted` | main.py:225-228 | "ar" adds one to `ar_downloads` only, "en" adds one to `en_downloads` only, and any other language changes neither. |
| `BotData.AfterDownload` | main.py:224-234 | Fails exactly when the user is known and has no `download_count`. Otherwise the language counter is counted and a known user's count goes up by one. The key set stays the same, so an unknown user is never created, and other records and `system` are unchanged. |
| `BotFile.DataFile.RecordDownload` | main.py:224-234 | Called with "ar" or "en", the only languages that reach this block (main.py:183). Saves `AfterDownload` of the loaded document when it succeeds. When it fails, the file is left untouched. |
| `BotData.CountOf` | main.py:259 | A user's count is the stored `download_count`, or 0 when it is missing. |
| `BotData.TotalDownloads` | main.py:259 | The sum of all users' counts: 0 for no users or when every count is 0, and at least each single user's count. |
| `BotData.TotalDownloadsRemove` | main.py:259 | The sum of user counts does not depend on the order: any user can be taken out first. |
| `BotData.TotalDownloadsUpdate` | main.py:259 | Replacing or adding one record changes the sum by the difference of the counts. |
| `BotData.WithLangKeepsTotal` | main.py:129-140 | `set_user_lang` never changes the total downloads. |
| `BotData.AfterDownloadTotal` | main.py:230-232 | A saved download raises the total by exactly 1 when the user is known, and by 0 otherwise. |
| `BotData.FreshBalanced` | main.py:106-117 | A fresh document's user counts sum to `ar_downloads + en_downloads`. |
| `BotData.WithLangKeepsBalance` | main.py:129-140 | `set_user_lang` keeps that balance. |
| `BotData.DownloadKeepsBalance` | main.py:224-234 | A saved download by a known user in "ar" or "en" keeps the balance, even when that language is stale. With `DownloadCanUnbalance`: for a download in "ar" or "en", the balance is kept exactly when the user is known. |
| `BotData.DownloadCanUnbalance` | main.py:224-234 | A download by a user with no record, in "ar" or "en", breaks a balanced document; in the bot such a user's language is always "en" (main.py:127, 179), so this happens there. The second case, a known user's download in a language other than "ar" or "en", holds of the block alone and is unreachable from `download_media`, which fails at main.py:183 first. |
| `BotFile.DataFile.Stats` | main.py:253-259 | Returns the number of users, the sum of their counts with a missing count read as 0, and the two language counters. The file is not modified. |
| `BotData.Lookup` | main.py:321-325 | Finds a record exactly when the key is present and the record is not empty (`if user_data:`). The record is returned unchanged. |
| `BotData.LookupAfterWithLang` | main.py:321-325 | Every user that `set_user_lang` touched is found under `str(user_id)` with that language. |
| `BotFile.DataFile.UserInfo` | main.py:321-336 | Returns the lookup in the loaded document; the file is not modified. |
| `BotFile.DataFile.Broadcast` | main.py:290-302 | The attempts are the stored user ids, each exactly once (equal multisets). `sent` counts the successful sends and `failed` the failed ones. Together they make the number of users. The file is not modified. |
| `BotFile.SendToAll` | main.py:295-302 | The loop makes one attempt per id and keeps going after a failure. At the end, the successes and failures add up to the number of ids. |
| `BotFile.TallyStep` | main.py:295-302 | Each attempt adds its id once to the attempts and to exactly one of the two tallies. |
| `BotFile.Tally` | main.py:290-302 | The successful and failed ids partition the user ids. |

## Left out

- Telegram transport (replies, keyboards, `send_message`, `delete_message`, polling): network I/O through a library. Whether one broadcast send succeeds is the parameter `delivers`.
- Media extraction with `yt_dlp`, and the choice between video and photo: a foreign library. `RecordDownload` models only the bookkeeping that runs after a file was sent. A download that fails records nothing.
- JSON encoding and the reads and writes of the file: the file is the `Option<Data>` field. A document without `users` or `system`, a `global_stats` without one of its counters, a JSON `null`, or a non-integer or negative count is not represented.
- Files that make `load_data` raise instead of reset (only `FileNotFoundError` and `JSONDecodeError` are caught at main.py:105): a file whose bytes do not decode as text, an unreadable file or a directory, and valid JSON that is not an object (a list, a number, a string, `null` or a boolean). On such a value `load_data` either raises at main.py:102-103 or, for a list or string that contains "global_stats", returns it, and every handler then fails on it (`TypeError` at main.py:127, 132, 291, 323, `AttributeError` at main.py:254). The model has no value for such a file.
- Creating the file at startup (main.py:355-356): file I/O outside the handlers.
- `datetime.now()`: the parameter `now`, an opaque string. One handler call gets one `now`, so when `set_user_lang` runs on a file that does not exist, the start date and the new user's `first_seen` are the same reading; the source reads the clock twice (main.py:110, main.py:134). No property depends on the two being equal.
- Concurrency: handlers run one at a time in the model. In the source, the language read at the start of a download may be stale when it is recorded, and two interleaved load–save sequences can lose an update. Neither is modelled.
- `asyncio.sleep` pacing, temporary file names and their removal: timing and filesystem effects.
- The `TEXTS` table and message formatting. The failure of a `TEXTS[lang]` lookup for a stored language other than "ar" or "en" is not modelled as a state; it shows in the model only as the precondition of `RecordDownload`.
- The admin-id comparison, the usage messages for a missing argument, and logging.
- BotFile.DataFile.Broadcast: the source attempts ids in the dictionary's insertion order; the model allows any order, because a `map` has no order.
