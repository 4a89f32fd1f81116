# siasisten-bot core, modelled in Dafny

The bot watches the assistant-position listing ("lowongan") of the SIASISTEN
portal and tells a Discord channel about new postings. Under the Discord and
HTTP glue sit three pieces of pure logic, which this project models and
proves properties of:

- **Listing extraction** (`get_lowongan`): the listing page's first table is
  read row by row; the header row is skipped, rows with fewer than 9 cells
  are skipped, and every other row becomes an entry `{title, daftar_link}`
  whose title is the stripped text of cell 1 and whose link is the portal's
  base URL followed by the href of cell 8, or `"Link not available"`.
- **Login decision** (`login`): no CSRF input on the login page means
  failure; otherwise the login succeeded exactly when the POST lands on a URL
  other than the login page.
- **Listing state and updates** (`bot.py`): the stored data is empty or a
  pair `(time, entries)`. An update, from the `update` command or from the
  periodic task, changes nothing when there is no scraper or the fetch is
  empty; otherwise it finds the fetched entries whose titles were not stored,
  replaces the stored data (and data.json) with `(now, fetched)`, and sends a
  message listing what was new. `clear` empties the state, `display` renders
  one bullet per stored entry.

Files:

- `wrappers.dfy` — `Option`.
- `text.dfy` — Python's `str.isspace`/`strip`, character counting, `join`.
- `scraper.dfy` — cells, rows, entries; row extraction (`ExtractRows`, a loop
  with a ghost list of the rows each entry came from) and `GetLowongan`.
- `login.dfy` — the CSRF lookup and the login success rule.
- `bot.dfy` — state, data file, diff, update per trigger, clear, display and
  the messages sent.

Abstractions: a page is the list of its tables, a table the list of its
`<tr>` rows, a row the list of its `<td>` cells, and a cell is its text (as
`get_text(separator="\n")` gives it) plus the href of its first anchor that has an href. A
failed HTTP request or parse is a `None` input. The time of an update is a
parameter (`Timestamp`), whether a scraper exists is a parameter
(`scraperOk`, the result of `Login` at start-up), and data.json is the
snapshot it holds (`DataFile`), not its JSON text.

## Model

| member | source | states |
|---|---|---|
| Text.TrimStart | scraper_requests.py:108 | the result is a suffix of the input, everything dropped in front is whitespace, and it does not start with whitespace |
| Text.TrimEnd | scraper_requests.py:108 | the result is a prefix of the input, everything dropped behind is whitespace, and it does not end with whitespace |
| Text.Strip | scraper_requests.py:108 | the stripped text has no whitespace at either end, is no longer than the input, and is empty for an all-whitespace input |
| Text.StripRecovers | scraper_requests.py:108 | any trimmed text surrounded by any whitespace strips back to exactly itself, so `strip` is fully determined |
| Text.StripIdempotent | scraper_requests.py:108 | stripping a stripped text changes nothing |
| Scraper.EntryOfRow | scraper_requests.py:105-118 | the title is cell 1's text stripped, with no surrounding whitespace; the link is the base URL followed by cell 8's href when it has one, and exactly "Link not available" otherwise |
| Scraper.TitleIsStripped | scraper_requests.py:106-108 | stripping an extracted title again leaves it unchanged |
| Scraper.ExtractRows | scraper_requests.py:89-120 | entries come, in increasing row order, from exactly the rows after the header that have at least 9 cells, one entry per such row; the header never contributes; at most one row gives no entries |
| Scraper.GetLowongan | scraper_requests.py:72-127 | a failed request or a page without tables gives no entries; otherwise the entries are extracted from the first table as ExtractRows states, and there are as many as it has wide data rows |
| Login.FindInput | scraper_requests.py:30-31 | the lookup finds nothing exactly when no input has the name; what it finds has the name, and it is the first input with that name, every earlier input having another name |
| Login.Login | scraper_requests.py:21-70 | a failed page fetch, a missing CSRF input, a failed POST or a POST that lands on the login URL all mean failure; a present token with a POST landing elsewhere means success |
| Bot.Titles | bot.py:119-123 | every entry's title is in the set and every title in the set belongs to some entry |
| Bot.FilterNew | bot.py:123-126 | the result is a subsequence of the fetch holding exactly the fetched entries whose title was not seen, each as often as the fetch has it |
| Bot.NewEntries | bot.py:122-128 | with nothing stored, every fetched entry is new; with stored data, the new entries are the fetched ones whose title is not stored, kept in fetch order and each as often as the fetch has it |
| Bot.NothingNewIffCovered | bot.py:119-126 | the diff is empty exactly when every fetched title is among the stored titles |
| Bot.ShortcutNeverChangesOutcome | bot.py:119-150 | the command's equal-title-sets shortcut gives the same outcome as computing the diff directly |
| Bot.Update | bot.py:105-153 | no scraper or an empty fetch leaves the state and the file untouched; otherwise state and file become exactly `(now, fetched)` (replaced, not merged); a non-empty diff is always reported as "new found" with exactly that diff (except the timer's first fetch), and "new found" never reports anything else; "no new" happens exactly when data was stored and covers every fetched title; the full listing only comes from the timer on a first fetch |
| Bot.TriggersAgree | bot.py:183-231 | the periodic task updates the state like the command and reports the same outcome, except on a first fetch, where it posts the full listing instead of calling every entry new |
| Bot.UpdateKeepsSynced | bot.py:151-152 | if memory and data.json agree before an update, they agree after it |
| Bot.Clear | bot.py:172-180 | clearing leaves no data and no file, so memory and file agree |
| Bot.ClearIdempotent | bot.py:175-177 | clearing twice is clearing once |
| Bot.Bullets | bot.py:93-96 | one bullet per entry |
| Bot.BulletsAt | bot.py:93-96 | bullet `i` is the bullet of entry `i` |
| Bot.BulletCount | bot.py:92-97 | the joined bullet list of entries whose text has no bullet mark contains exactly one bullet mark per entry |
| Bot.BulletListInOrder | bot.py:92-97 | each entry's bullet sits in the joined list at its offset, and the next entry's bullet starts right after it and one `"\n\n"` separator |
| Bot.Display | bot.py:81-102 | with no data the "no lowongan data" message; otherwise an "Info Loker" embed at the stored time whose text is the intro line followed by the bullet list of the stored entries |
| Bot.DisplayBulletCount | bot.py:89-97 | for entries whose text has no bullet mark, the display text has exactly one bullet per stored entry |
| Bot.ClearedDisplaysNoData | bot.py:84-88 | after `clear`, `display` gives the "no data" message |
| Bot.UpdateThenDisplay | bot.py:151 | after a successful update, `display` lists exactly the fetched entries |
| Bot.Reply | bot.py:108-150 | the command answers every outcome, while the periodic task stays silent exactly when nothing was fetched; each outcome gets its own title and text |
| Bot.ReplyBulletCount | bot.py:130-150 | for entries whose text has no bullet mark, a message about new entries or a full listing has one bullet per reported entry; "no new" has none |
| Bot.ReplyBulletsAreNewEntries | bot.py:119-229 | for either trigger and entries whose text has no bullet mark, the message after a non-empty fetch has exactly one bullet per new entry |

## Left out

- Discord: the bot object, embeds as objects, sending, the guild check in `on_ready`, the channel lookup of the periodic task, the `h` help command with its fixed text, and the fixed "Data cleared!" embed that `clear` replies with (bot.py:24-29, 59-78, 156-169, 179-180, 233-238).
- The periodic loop and its start-up wait (bot.py:183, 241-243): scheduling and concurrency, not logic.
- Start-up loading of data.json and `write_json` (bot.py:40-56): file I/O and JSON. The file is modelled only as the snapshot it holds. In the source, `json.load` (bot.py:44) sits outside the `try`, so malformed JSON stops the bot at start-up; a bad `time` field, missing keys, or a top-level JSON value that is not an object fall back to no data (bot.py:45-50).
- Timestamp formatting with `strftime` (bot.py:99, 138): the time stays an opaque value inside `Heading.AsOf`.
- HTTP requests, `raise_for_status`, BeautifulSoup parsing, request headers and the credentials read from the environment (scraper_requests.py:15-19, 25-30, 39-58, 76-83): each failure is a `None` input. The construction of `ScraperRequests`, which raises when login fails, is the `scraperOk` parameter.
- Logging throughout.
- Login.Login: the CSRF token's value and the credentials posted are not modelled. Only whether the CSRF input exists and where the POST landed decide the result.
- Per-entry statistics and ordinal day suffixes do not appear in this code. They are not modelled.
- The two update handlers do not return one uniform result. On a first fetch, the command reports every entry as new. The periodic task instead posts the full listing under the "Info Loker" title. The model follows the code (`Outcome.FullListing`).
