# Food bot meal ledger in Dafny

This project models the core of a Telegram food-logging bot (`bot.py`):

- A user sends a photo of a meal.
- A language model answers in a two-line format:
  - `Блюдо: <dish>`
  - `Итого калорий (ккал): <number>`
- The bot reads the dish and the number from that answer and appends `{dish, calories}` to the user's list for the current day in a JSON store.
- `/today` prints the day's meals and their total.

The model has four modules:

- `PyStr` (`pystr.dfy`): the Python string operations the core relies on.
  - `str.splitlines`, with Python's full set of line breaks. `\r\n` counts as one break.
  - `str.replace(label, "")`: left to right, non-overlapping, no rescan.
  - `str.strip` and `str.split()`, with the `str.isspace` set.
  - `int()`: surrounding whitespace, an optional sign, ASCII digits with single underscores between them.
  - `str(int)`.
- `Users` (`users.dfy`): the `USER_NAMES` table and `get_user_name`.
- `Answer` (`answer.dfy`): the parsing block of `handle_photo`. It gives `(dish, calories)` or the exception the block raises.
- `Ledger` (`ledger.dfy`):
  - The store, a map from user id to day to list of records.
  - `add_entry`, as the pure function `Recorded` and the method `MealLog.AddEntry`.
  - The text of the `/today` report.
  - `handle_photo`, as `MealLog.HandlePhoto`. Each way the handler can end is an `Outcome`:
    - ignored (no image);
    - replied;
    - raised an uncaught exception. An exception sends no reply and leaves the store unchanged.

The day (`str(date.today())`) and the language model's result are parameters. The store is a field of `MealLog` that stands for the contents of `data.json` between calls.

Behaviour of `bot.py` that the model keeps as it is:

- **Negative numbers.** `int()` accepts a negative number, and nothing checks that calories are non-negative, so such a number is recorded as it is.
- **Parse failures.** An answer that does not parse raises `IndexError` or `ValueError` out of the handler. Nothing is recorded and no reply is sent.
- **Numbers written in words.** The calories token must be a whole `int()` literal, so "около 300" fails (`Answer.EstimateInWords`).

## Model

| member | source | states |
|---|---|---|
| PyStr.SplitLines | bot.py:163 | `splitlines()`: no line contains a line break, and the result is empty exactly when the text is empty |
| PyStr.SplitLinesCons | bot.py:163 | a break-free prefix ended by a line break is the first line, and splitting resumes after the break (`\r\n` is one break) |
| PyStr.SplitLinesJoin | bot.py:102 | splitting `"\n".join(lines)` followed by a newline gives back exactly `lines` |
| PyStr.RemoveAll | bot.py:164 | `replace(label, "")` never makes the text longer |
| PyStr.RemoveAllFirst | bot.py:164 | the leftmost occurrence of the label is deleted, the text before it is kept and scanning resumes right after it; with `RemoveAllAbsent` this fixes the result of `replace(label, "")` on every text |
| PyStr.RemoveAllAbsent | bot.py:164 | text without the label is left unchanged by the replacement |
| PyStr.RemoveAllLeading | bot.py:167 | a leading label is deleted and scanning resumes right after it |
| PyStr.Strip | bot.py:164 | the result of `strip()` starts and ends with a non-space character, or is empty |
| PyStr.StripSurrounded | bot.py:164 | `strip()` removes exactly the surrounding whitespace from stripped text |
| PyStr.StripBlank | bot.py:168 | `strip()` gives the empty string exactly when the text is all whitespace |
| PyStr.StripKeepsNoLineBreak | bot.py:164 | `strip()` of a line without line breaks has no line break |
| PyStr.TrimRightAfter | bot.py:168 | trailing whitespace is trimmed only at the end; a prefix ending in a non-space is kept whole |
| PyStr.Words | bot.py:169 | every word of `split()` is non-empty and has no whitespace |
| PyStr.WordsEmpty | bot.py:169 | `split()` gives no word exactly when the text is all whitespace, which is when `split()[0]` raises |
| PyStr.WordsFirst | bot.py:169 | `split()[0]` is the text up to the first whitespace |
| PyStr.Join | bot.py:102 | `"\n".join(lines)`; `SplitLinesJoin` states that splitting it gives the lines back |
| PyStr.IntToString | bot.py:68 | `str(n)`: a `-` for negative numbers, then the decimal digits; `ParseIntOfString` and `IntToStringInjective` state its properties |
| PyStr.ParseInt | bot.py:165-170 | `int(token)`: surrounding whitespace, an optional sign, ASCII digits with single underscores between them, or `None` where `int()` raises `ValueError`; `ParseIntOfString` states that it inverts `str` |
| PyStr.ParseIntOfString | bot.py:165-170 | `int(str(n)) == n` for every integer, negative ones included |
| PyStr.IntToStringInjective | bot.py:68 | different user ids give different `str(user_id)` store keys |
| Users.TableKeysLower | bot.py:39-43 | every key of `USER_NAMES` is a lower-case ASCII word |
| Users.Lower | bot.py:48 | `username.lower()`, character by character and of the same length; `LowerMatches` states what it finds in the table |
| Users.LowerMatches | bot.py:48 | for a lower-case key, `username.lower() == key` exactly when the username spells the key in any letter case |
| Users.GetUserName | bot.py:45-49 | no user, no username or an empty username gives "друг"; a username that spells a table key in any case gives that key's name; any other username gives the first name |
| Answer.ParseAnswer | bot.py:163-170 | fewer than two lines is exactly `MissingLine`; nothing but whitespace after the calories label is exactly `MissingNumber`; the result is `Ok` exactly when there are two lines and the first word after the label is one `int()` accepts; `NotAnInteger` carries that first word, which `int()` rejects; on success the dish is line 0 with every `Блюдо:` removed, then stripped (so on one line, with no surrounding whitespace), and the calories are the value of that first word |
| Answer.DishOf | bot.py:164 | the dish: line 0 with every `Блюдо:` removed, then stripped; `DishLineRoundTrip` states that it gives back the dish of a well-formed line |
| Answer.CaloriesText | bot.py:166-168 | line 1 with every `Итого калорий (ккал):` removed, then stripped; `CaloriesFirstWord` states which word `split()[0]` then takes |
| Answer.RenderAnswer | bot.py:135-137 | an answer in exactly the format the prompt demands; `ParseRenderedAnswer` states that it parses back |
| Answer.CaloriesBlank | bot.py:167-169 | `split()` of the stripped calories text is empty exactly when the line minus the label is all whitespace |
| Answer.TwoLines | bot.py:163 | two break-free lines joined by a newline are `lines[0]` and `lines[1]`, whatever lines follow |
| Answer.RenderedLines | bot.py:135-137 | an answer in the demanded format splits into its dish line and its calories line |
| Answer.DishLineRoundTrip | bot.py:164 | the dish line gives back any stripped dish that does not contain the label |
| Answer.CaloriesFirstWord | bot.py:165-170 | on the calories line, the token passed to `int()` is the first word after the label |
| Answer.CaloriesLineRoundTrip | bot.py:165-170 | the calories line gives back the number written on it, with or without words after it |
| Answer.ParseRenderedAnswer | bot.py:163-170 | round trip: an answer in the demanded format parses to exactly its dish and number, whatever words follow the number and whatever lines follow the answer |
| Answer.OneLineAnswer | bot.py:164-166 | an answer without a line break fails with `MissingLine` |
| Answer.NothingAfterLabel | bot.py:165-170 | a second line holding only the calories label and whitespace fails with `MissingNumber`, whatever the first line and the lines after |
| Answer.EchoedTemplate | bot.py:135-137 | the bare template with nothing filled in fails with `MissingNumber` |
| Answer.WordEstimate | bot.py:165-170 | a well-formed answer whose first word after the calories label is not an integer fails with `NotAnInteger` of that word |
| Answer.EstimateInWords | bot.py:165-170 | "около 300" as the estimate fails with `NotAnInteger("около")` |
| Answer.CaloriesWithUnit | bot.py:165-170 | "450 ккал" after the label parses as 450 |
| Ledger.Recorded | bot.py:68-74 | after `add_entry`, the user's day list is the old list (or `[]`) with exactly the new record appended; the user and day keys exist; every other user and every other day of the user is unchanged; no other key appears |
| Ledger.MealsOn | bot.py:93 | `data.get(str(user_id), {}).get(day, [])`: a missing user or day is the empty list; `RecordedMeals` states how `add_entry` changes it |
| Ledger.RecordedMeals | bot.py:68-74 | read back through `get(...).get(..., [])`, the day grows by the one record, and every other (user, day) pair reads the same as before |
| Ledger.RecordedKeepsNoEmptyLists | bot.py:68-74 | a store without empty user maps or day lists keeps that shape after `add_entry` |
| Ledger.RecordedKeepsDishesOneLine | bot.py:71-74 | appending a single-line dish keeps every dish of the store on one line |
| Ledger.KeepsShape | bot.py:68-74 | `add_entry` keeps a store free of empty lists, and keeps its dishes single lines when the new dish is one |
| Ledger.EmptyMeansAbsent | bot.py:93-95 | in a store without empty user maps or day lists, an empty day list means that the user or the day has no key |
| Ledger.Total | bot.py:99 | `sum(m["calories"] for m in meals)`; `TotalAppend` and `RecordedTotal` state its properties |
| Ledger.TotalAppend | bot.py:99 | the sum of calories over two lists joined is the sum of their sums |
| Ledger.RecordedTotal | bot.py:99 | after `add_entry`, the day's total is the old total plus the new calories |
| Ledger.MealLine | bot.py:101 | the f-string `• dish — N ккал` of one meal |
| Ledger.MealLines | bot.py:101 | one `• dish — N ккал` line per meal, in order |
| Ledger.TotalLine | bot.py:103 | the f-string `Итого: <total> ккал` |
| Ledger.TodayReply | bot.py:95-103 | the `/today` reply for a day's list; `TodayReplyNothingYet`, `TodayReplyLines` and `TodayReplyOfStore` state its shape |
| Ledger.RecordedReply | bot.py:175 | the confirmation f-string `name, записал:\ndish — N ккал` |
| Ledger.TodayReplyNothingYet | bot.py:95-97 | the reply is the "nothing recorded yet" message exactly when the day has no meals |
| Ledger.TodayReplyLines | bot.py:101-103 | line by line, the report is the header, a blank line, one line per meal in order, a blank line and `Итого: <total> ккал` |
| Ledger.TodayReplyOfStore | bot.py:93-103 | the report of any day with meals has that shape, for a store whose dishes are single lines |
| Ledger.MealLog.constructor | bot.py:54-56 | with no data file the store is empty |
| Ledger.MealLog.Load | bot.py:57-58 | loading gives the saved document |
| Ledger.MealLog.AddEntry | bot.py:64-76 | the new store is `Recorded(old store, user, day, record)`; empty-list freedom and single-line dishes are preserved |
| Ledger.MealLog.Today | bot.py:88-105 | the reply is the report of `data.get(str(user_id), {}).get(day, [])`, and the store is not changed |
| Ledger.MealLog.HandlePhoto | bot.py:110-179 | no image is ignored; a rate limit gives the "try later" reply; a missing content, another API error, a parse failure or a missing user raises, and each of these leaves the store unchanged; otherwise exactly the parsed record is appended and the confirmation names the user, dish and calories; both store shapes are preserved |

## Left out

- **Telegram wiring.** `start`, `main`, handler registration and the plain-text lambda reply are transport glue with no logic to verify.
- **The OpenAI call.** `chat.completions.create` is represented by its result, the `Estimate` parameter: an answer text, no content, a rate-limit error or any other error.
- **Images.** Fetching the photo or image document, downloading it and base64-encoding it are reduced to the flag `hasImage`. An image document with no MIME type, which makes `startswith` raise, is not distinguished.
- **The prompt and the caption.** The prompt text and the caption it embeds do not influence what is parsed or recorded, so they are not modelled.
- **JSON files.** `load_data` and `save_data` read and write `data.json`. The store is a field instead, and JSON encoding is not modelled.
- **Clock.** `date.today()` is a parameter `day`.
- **Concurrency.** Two `add_entry` calls that race on the read-modify-write of the file can lose one update. The model runs each call atomically.
- **Environment and logging.** Reading the environment and logging do nothing the core depends on.
- **Reply delivery.** A failure of `reply_text` after a record has been stored is not modelled.
- PyStr.ParseInt: surrounding whitespace is stripped with the whole `str.isspace` set, while CPython's `int()` skips only ASCII whitespace among ASCII characters (`int("\x1c5")` raises); the 4300-digit limit of `int()` is not modelled. The token `ParseAnswer` passes holds no whitespace and, with a 200-token answer, cannot reach 4300 digits, so the parse is unaffected.
- PyStr.ParseInt: Unicode decimal digits other than ASCII, which Python's `int()` also accepts, are not modelled.
- Users.LowerChar: lower-casing is modelled only for ASCII `A`-`Z` and KELVIN SIGN. These are the only characters whose lower case is an ASCII letter, so lookups in the ASCII-keyed table give the same results as Python. Every other character is kept unchanged.
- Users.User: `first_name` is taken to be a string. Telegram always sends one.
