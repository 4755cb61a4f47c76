# Movie bot core, modelled in Dafny

This project models the deterministic core of `movie_bot.py`. That file is a Telegram bot that answers menu buttons and text messages by querying the TMDB movie API. The model covers the parts that are not network plumbing:

- **MarkdownV2 escaping** (`escape_markdown_v2`). Each of the 18 reserved characters gets a backslash in front of it. Every other character is copied, the backslash included. The module `MarkdownV2` defines the escaper and a reader for its output (`Unescape`), and proves the round trip, the length law, distribution over concatenation and injectivity.
- **The movie caption and the photo decision** (`send_movie_with_poster`). The record's fields are escaped one by one, and the bot's own markup around them is left as it is. The synopsis is the overview cut to 250 characters with `...` always appended. A link line appears only when the id is truthy. A photo is sent exactly when `poster_path` is truthy.
  - The method `Caption.BuildCaption` accumulates the caption line by line, as the source does.
  - It is proved equal to the specification function `CaptionLines`.
  - A parser for the lines (`ParseCaption`) is proved to read every caption back into the fields it came from.
- **Request-parameter injection** (`fetch_tmdb_data`). The caller's dict is updated in place; a `None` dict is replaced by a fresh one. The credential, the `es-ES` locale and the adult-content exclusion overwrite whatever the caller had under those three keys. This is the class `TmdbClient.ParamDict` and the method `PrepareParams`.
- **The current-month window** (`handle_estrenos_callback`). It is built from Gregorian date arithmetic as Python's `datetime.date` does it: `replace(day=…)`, adding and subtracting days, and the overflow error past year 9999. The window is written as `YYYY-MM-DD`, the full-date of section 5.6 of RFC 3339. "Today" is a parameter. The month window is proved to run from day 1 to the month's last day under the Gregorian leap rule.
- **The genre keyboard and the callback round trip** (`recomendar_menu_genero_handler`, `handle_recomendar_callback`).
  - The first twelve genres, in map order, are laid out two to a row by a loop.
  - Each button carries `recom_genero_<id>`.
  - Decoding with `int(data.split('_')[-1])` gives back that id, and the name lookup gives back the button's label.
- **The pending-search flag** (`solicitar_busqueda`, `buscar_pelicula_message_handler`). The per-user flag in `user_data` is a class with the two handlers as methods. It is also a step function over event sequences. Lemmas about those sequences show that, as long as every search returns, one press of the button enables at most one search.

Helper modules:

- `Decimal` holds Python's `str(int)`, its `int(str)` on signed ASCII digit strings, and fixed-width zero padding for `strftime`, with their round trips.
- `Wrappers` holds `Option`.

The caption is not escaped as a whole. The code escapes each field separately (`movie_bot.py:53-56`, `60`, `66`) and leaves its own `*…*` and `[Ver en TMDB](…)` markup unescaped, and that is what `Caption.CaptionLines` does.

## Model

| member | source | states |
|---|---|---|
| MarkdownV2.Escape | movie_bot.py:46-49 | the escaped text is never shorter than the input, and is empty exactly when the input is |
| MarkdownV2.EscapeAppend | movie_bot.py:49 | escaping distributes over concatenation: `esc(a+b) == esc(a)+esc(b)` |
| MarkdownV2.EscapeLength | movie_bot.py:48-49 | the escaped length is the input length plus the number of reserved characters |
| MarkdownV2.EscapeHead | movie_bot.py:48-49 | escaped text never starts with a reserved character; its first character is the backslash when the input's first character is reserved, and the input's own first character otherwise |
| MarkdownV2.UnescapeEscape | movie_bot.py:46-49 | reading escaped text back (backslash + reserved character gives that character) gives the input: nothing is lost |
| MarkdownV2.EscapeInjective | movie_bot.py:46-49 | two texts with the same escaped form are equal |
| MarkdownV2.EscapedReservedArePrefixed | movie_bot.py:48-49 | every reserved character in the output stands right after a backslash |
| MarkdownV2.BackslashPassesThrough | movie_bot.py:48 | the backslash is not in the reserved set and is copied unchanged: `\*` becomes `\\*` |
| Decimal.IntToDecimal | movie_bot.py:58 | `str(n)` is non-empty, has no underscore, and starts with a digit exactly when `n >= 0` |
| Decimal.ParseIntRoundTrip | movie_bot.py:284 | `int(str(n)) == n` for every integer `n` |
| Decimal.ParseInt | movie_bot.py:284 | `int()` accepts exactly an optional sign followed by one or more ASCII digits; unsigned digits read as their value and `-` digits as its negation |
| Decimal.NatToDigitsValue | movie_bot.py:58 | the shortest decimal digits of `n` have value `n` |
| Decimal.PadDigits | movie_bot.py:217 | a zero-padded field has exactly the requested width and only digits |
| Decimal.PadDigitsValue | movie_bot.py:217 | a zero-padded field has the value it was written from |
| Decimal.DigitsToNatPadded | movie_bot.py:217 | every digit string is the padded form of its own value, at its own width |
| Calendar.DaysInMonth | movie_bot.py:219 | a month has 28 to 31 days; February has 29 exactly in a Gregorian leap year; other months have at least 30 |
| Calendar.ReplaceDay | movie_bot.py:217-218 | `replace(day=k)` keeps year and month, sets the day, and stays valid |
| Calendar.NextDay | movie_bot.py:218 | adding one day fails exactly at 9999-12-31, and otherwise gives a valid date |
| Calendar.PrevDay | movie_bot.py:219 | subtracting one day fails exactly at 0001-01-01, and otherwise gives a valid date |
| Calendar.AddDays | movie_bot.py:218 | adding days gives a valid date whenever it does not overflow |
| Calendar.SubDays | movie_bot.py:219 | subtracting days gives a valid date whenever it does not overflow |
| Calendar.DaysBeforeNextYear | movie_bot.py:218 | Python's closed form for days before a year grows by 366 in leap years and 365 otherwise |
| Calendar.NextDayOrdinal | movie_bot.py:218 | one day forward adds one to Python's proleptic ordinal, across month and year ends |
| Calendar.AddDaysOrdinal | movie_bot.py:218 | adding `n` days adds `n` to the ordinal |
| Calendar.PrevDayUndoesNextDay | movie_bot.py:218-219 | one day back undoes one day forward |
| Calendar.NextMonthFromDay28 | movie_bot.py:218 | day 28 plus 4 days, set to day 1, is the first of the next month, the year rolling over after December; it overflows exactly when the next month does not exist |
| Calendar.CurrentMonthRange | movie_bot.py:217-219 | the window computed as the source does: its lower bound is day 1 of today's month and its upper bound is a valid date |
| Calendar.CurrentMonthRangeIsWholeMonth | movie_bot.py:217-219 | the window is day 1 to daysInMonth(y, m) of today's month; only December 9999 overflows |
| Calendar.LeapFebruaryExample | movie_bot.py:217-219 | 2024-02-15 gives the window 2024-02-01 to 2024-02-29 |
| Calendar.FormatDate | movie_bot.py:217 | `strftime('%Y-%m-%d')` gives ten characters with dashes at positions 4 and 7 |
| Calendar.ParseDate | movie_bot.py:217 | the full-date reader only accepts valid dates |
| Calendar.ParseFormatDate | movie_bot.py:217 | reading a written date gives the date back |
| Calendar.FormatParseDate | movie_bot.py:217 | writing a read date gives the text back |
| TmdbClient.WithCredentials | movie_bot.py:34-36 | the keys are the caller's plus the three injected ones; `api_key`, `language == "es-ES"` and `include_adult == "false"` hold; every other caller entry is unchanged |
| TmdbClient.CallerValuesOverridden | movie_bot.py:34-36 | caller values under the three keys make no difference to the request |
| TmdbClient.WithCredentialsIdempotent | movie_bot.py:34-36 | preparing an already prepared dict changes nothing |
| TmdbClient.ParamDict.Set | movie_bot.py:34 | `d[k] = v` maps `k` to `v` and keeps the other entries |
| TmdbClient.PrepareParams | movie_bot.py:32-36 | the caller's dict itself is updated, or a fresh one is made for `None`; its new entries are the caller's entries with the three values written over them |
| Caption.SynopsisSource | movie_bot.py:54 | the synopsis text has 3 to 253 characters and ends in `...`; before the dots stands the overview (or `Sin descripción.`) when it has at most 250 characters, and otherwise exactly its first 250 characters |
| Caption.PosterUrl | movie_bot.py:68-70 | a photo is chosen exactly when `poster_path` is present and non-empty, and its URL is the image base plus the path |
| Caption.CaptionLines | movie_bot.py:60-66 | the caption's lines: four fixed lines, plus one for a non-empty intro and one for a truthy id |
| Caption.Render | movie_bot.py:60-66 | the lines joined with each one ended by a newline; the text ends in a newline whenever there is a line |
| Caption.BuildCaption | movie_bot.py:53-72 | the caption built by successive appends is the caption lines, each ended by a newline; the photo decision is `PosterUrl` |
| Caption.ParseCaptionLines | movie_bot.py:53-66 | reading the caption back gives the intro only when it is non-empty, the title and date with the `N/A` defaults, the rating with the `0` default, the cut synopsis, and a link to the movie's own id exactly when the id is truthy |
| Caption.LinkLineIffId | movie_bot.py:57-58 | some caption line starts with `[Ver en TMDB](` exactly when the id is truthy; an intro cannot fake one |
| Caption.SynopsisLineEnd | movie_bot.py:54 | the escaped synopsis line always ends in three escaped dots |
| Caption.LinkFor603 | movie_bot.py:57-58 | a record with id 603 ends its caption with a link line pointing at movie 603 |
| Releases.ReleasesRequest | movie_bot.py:212-238 | the choice is rejected exactly when it is neither `estrenos_mes` nor `estrenos_ano`; only the month choice can overflow; a request has the lower date bound, the sort order and the region |
| Releases.MonthWindow | movie_bot.py:216-227 | the month choice asks, most popular first and for region `ES`, for dates from day 1 to the month's last day; it overflows only in December 9999 |
| Releases.MonthWindowFebruary2024 | movie_bot.py:216-227 | for 2024-02-15 the bounds sent are `2024-02-01` and `2024-02-29` |
| Releases.YearWindow | movie_bot.py:228-235 | the year choice asks for today's year from today on, earliest first, for region `ES`, with no upper date bound |
| Genres.Buttons | movie_bot.py:264-265 | one button per genre, in order, labelled with the genre's name and carrying `recom_genero_<id>` |
| Genres.Shown | movie_bot.py:262 | the shown genres are the first min(12, n) in map order |
| Genres.CloseKeyboard | movie_bot.py:269-270 | appending the unfinished row, if any, gives a well-shaped keyboard with all the buttons |
| Genres.PlaceButton | movie_bot.py:265-268 | one pass of the loop puts the button after those placed so far; closed rows stay at two buttons and the open row stays under two |
| Genres.GenreKeyboard | movie_bot.py:258-270 | flattening the rows gives the shown genres' buttons in order; every row but the last has 2 buttons, the last 1 or 2; there are ceil(shown/2) rows |
| Genres.GenreMenuReply | movie_bot.py:254-277 | an empty map gets the "unavailable" reply; otherwise the menu is sent, so the "no genres" reply is never reached; the menu's buttons are the shown genres in order |
| Genres.LastField | movie_bot.py:284 | `split('_')[-1]` is the suffix of the text after its last underscore |
| Genres.LastFieldAfterUnderscore | movie_bot.py:284 | the last field of `p + "_" + t` is `t` when `t` has no underscore |
| Genres.DecodeGenreCallback | movie_bot.py:284 | a decoded id comes from the non-empty text after the last underscore |
| Genres.CallbackRoundTrip | movie_bot.py:262-284 | decoding any button's `recom_genero_<id>` gives back `id`, for every integer id |
| Genres.CallbackWithoutIdRefused | movie_bot.py:284-287 | data ending in an underscore has no id and is refused with the `ValueError` path |
| Genres.GenreName | movie_bot.py:289 | the name looked up is `Desconocido` or the name of an entry with that id |
| Genres.GenreNameOf | movie_bot.py:289 | with distinct ids, the lookup of an entry's id gives that entry's name |
| Genres.ButtonSelectsItsGenre | movie_bot.py:262-289 | pressing the `j`-th button decodes to the `j`-th genre's id, whose name is the button's label |
| Genres.RecommendRequest | movie_bot.py:283-296 | the selection fails exactly when the callback data does not decode; otherwise it asks, most popular first, for movies with at least 100 votes, and for nothing else |
| Genres.ButtonRequestsItsGenre | movie_bot.py:262-296 | pressing a button asks for that genre by name and by `with_genres` id |
| SearchFlag.Step | movie_bot.py:166-177 | one event searches exactly when it is a message and the flag is set, with the message text, and then clears the flag; the button sets the flag; an unsearched message leaves it as it was |
| SearchFlag.Run | movie_bot.py:166-177 | a run of events searches at most once per message, and nothing when there are no events |
| SearchFlag.UserData.constructor | movie_bot.py:166 | a new user has no flag |
| SearchFlag.UserData.RequestSearch | movie_bot.py:177 | the button sets the flag to true |
| SearchFlag.UserData.HandleText | movie_bot.py:166-173 | a message is searched for, with its text as the query, exactly when the flag is true, and the flag becomes false; otherwise nothing happens and the flag is unchanged |
| SearchFlag.FlagFollowsLastEvent | movie_bot.py:166-177 | after a run the flag is set exactly when the last event was the button |
| SearchFlag.OneSearchPerRequest | movie_bot.py:166-177 | searches plus a still-pending flag never exceed presses of the button (plus one if the flag started set) |
| SearchFlag.SearchesAreMessages | movie_bot.py:166-168 | every query searched is the text of some message of the run |
| SearchFlag.IdleIgnoresMessages | movie_bot.py:166-173 | with the flag unset and no button press, messages search nothing and leave the flag as it was |
| SearchFlag.ButtonThenTwoMessages | movie_bot.py:166-177 | after the button, the first message is searched and the second is not |
| SearchFlag.ButtonThenTwoMessagesOnUserData | movie_bot.py:166-177 | the same scenario through the class's two handlers |

## Left out

- The HTTP request, `raise_for_status` and JSON decoding (`movie_bot.py:38-44`) are network I/O. A response enters the model only as a `Movie` record.
- Telegram calls (`reply_text`, `send_photo`, `send_message`, `edit_message_text`, `delete`, `answer`) and the keyboard markup classes are foreign library I/O. `BuildCaption` returns the caption and the photo URL instead of sending them.
- The fallback to a text message when sending the photo raises (`movie_bot.py:73-82`) depends on a foreign exception and is not modelled.
- The async choreography and the job-queue scheduling of `load_genres` are runtime plumbing. So is the race between reading and clearing the search flag across concurrent updates.
- `load_genres` building the genre map from the response (`movie_bot.py:87-94`) is not modelled. The map is given as a sequence of entries in insertion order, with distinct ids.
- `random.choice` over the recommendation results (`movie_bot.py:302`) is left out: its distribution cannot be stated here.
- `datetime.today()` (`movie_bot.py:214`) is a clock, so today's date is a parameter.
- Environment loading, logging and `main`'s handler registration (`movie_bot.py:13-21`, `308-344`) are configuration. The API key is an ordinary string parameter; the key being unset (`None`) is not modelled.
- The static start and help texts and the other handlers' fixed replies (`movie_bot.py:97-157`, `181-201`) have no behaviour to model. This includes the slicing of results to 3 or 5 movies.
- The "Buscando …" progress text built from the choice (`movie_bot.py:209-210`) is display-only and not modelled.
- SearchFlag.UserData.HandleText: the source clears the flag only after the search returns (`movie_bot.py:168-169`). If the search raises, for instance from a Telegram call, the flag stays set and the next message is searched too. The model assumes every search returns, so `OneSearchPerRequest` holds for the model and not for a bot whose searches fail.
- Caption.RatingText: `str()` of a float `vote_average` is not modelled. The rating enters as the text Python would print, and the default `0` prints as `0`.
- Caption.Movie: a JSON `null` in a field (where Python would print `None`, or fail slicing a `None` overview) is not modelled. A field is either absent or a string.
- Releases.ReleasesRequest: the heading is kept as raw text. Its escaping when sent (`movie_bot.py:246`) is the plain `MarkdownV2.Escape` and is not repeated in this member.
- Decimal.ParseInt: only an optional sign followed by ASCII digits is accepted. Python's `int()` also accepts surrounding whitespace, underscores between digits and non-ASCII digits. None of those can occur in the callback data the bot itself writes.
- Calendar.FormatDate: years are zero-padded to four digits. `strftime('%Y')` for years below 1000 is platform dependent.
