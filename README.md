# telegram-find-prices: the matching and delivery core in Dafny

The bot watches Telegram channels for product mentions. A user registers products to watch, each
optionally with a target price. For every channel post the listener normalises the text, looks for
each watched name as a substring, and extracts the euro prices written in the post. A match is
stored in `price_history` and announced to the owner by the bot. A backfill scans a channel's
recent posts in the same way. A daily digest groups the day's matches per product.

This project models that core as Dafny modules, one per source file:

- `Strings` — the Python string built-ins the code relies on: `lower()` (ASCII), `strip()`,
  `split()`, `int()`, `str()`, `startswith`, `in` and string `<=`.
- `Collections` — grouping with `dict.setdefault(k, []).append(x)`, a stable `sorted`, and list
  rendering loops.
- `Models` — the five tables as datatypes, with their uniqueness keys and defaults, held by a
  `Database` class whose sequence fields the state-changing operations update.
- `Config` — the `ALLOWED_USERS` filter and the environment defaults.
- `Translations` — `resolve_lang` and `t` with its two fallbacks. The message catalogue is the
  `Message` datatype, one constructor per key. The wording of each message and `str.format` are
  parameters, bundled as a `Catalogue`.
- `PriceParser` — `_PRICE_PATTERN` as a hand-written scanner. The model proves that the scanner
  agrees with the regular expression, and defines `_to_float` and `extract_prices` with prices
  in integer cents.
- `ChannelListener` — `_normalize`, `check_product_match`, `_build_message_link` and the loop of
  `on_channel_message`.
- `ClientCommands` — `list_channels`, the table part of `join_channel`, `leave_channel` and the
  nested scan loop of `backfill_channel`.
- `Scheduler` — the next-fire arithmetic of `_loop` and the digest built and sent by
  `_send_summaries`.
- `BotCommands` — `_is_authorized`, the identifier normalisation and classification of
  `/add_channel`, the menu-choice parsing shared by `/remove_channel`, `/unwatch` and
  `/history`, the duplicate check and insert of `/watch`, the delete of `/remove_channel`, and
  the category listing.

Telegram is outside the model and enters only as parameters:

- the chat a post comes from (its title, username and id);
- the posts a backfill receives;
- where a scan is interrupted by a flood wait or an RPC error;
- what a join answered;
- the set of sends that raise.

Time enters as strings (`found_at`, `today_start`) or as integer seconds (the scheduler).

Two keys, `remove_channel_prompt` and `remove_channel_removed`, appear in neither message table
of `src/translations.py`. `t` therefore returns the key's own name for them. The model keeps
this: `BotCommands.RemovePrompt` formats the bare key, `Translations.MissingKeyIsItsName` states
the fallback, and `Translations.Key` separates catalogued messages from such names.

One consequence: `/remove_channel` never shows its menu. The key's name has no `{channels}`
field, so `str.format` returns it unchanged and the user receives the text
`remove_channel_prompt` (`BotCommands.RemovePromptIsKey`). The numbers still work.
`BotCommands.MenuNumberSelects` and `BotCommands.ChoiceRoundTrip` show that typing k selects
the k-th channel of the menu that was built, which the user does not see. `str.format` is a
parameter of the model. `Translations.FormatKeepsPlain` states the one property of it used
here: a template without braces comes back unchanged.

## Model

| member | source | states |
|---|---|---|
| Strings.Lower | src/channel_listener.py:19 | `lower()` maps each character by itself, so the result has the input's length and lower-cases each position |
| Strings.LowerIdempotent | src/bot_commands.py:294 | lower-casing a lower-cased text changes nothing, so names stored lower-case compare equal to their lower-cased input |
| Strings.Strip | src/config.py:33 | `strip()` keeps a slice that neither starts nor ends with whitespace, and leaves a text already trimmed unchanged |
| Strings.StripIsSlice | src/bot_commands.py:124 | what `strip()` keeps is one contiguous slice of the input |
| Strings.ParseInt | src/bot_commands.py:213-217 | `int()` reads a string of digits as its decimal value |
| Strings.ReadInteger | src/bot_commands.py:214 | on a text without surrounding whitespace, `int()` succeeds exactly on underscored digits, with or without one sign before them |
| Strings.ParseIntSpec | src/bot_commands.py:213-217 | `int()` works on every input as follows. It reads the whitespace-stripped text. It succeeds exactly when that text is digits with single underscores between them, after at most one sign. The value is the digits' value, negated after `-`. Every other input gives `None`, which stands for `ValueError` |
| Strings.ParseIntStrip | src/bot_commands.py:214 | whitespace around the text never changes what `int()` reads |
| Strings.ParseIntPadded | src/bot_commands.py:214 | digits with whitespace on both sides read as their value |
| Strings.ParseIntPlus | src/bot_commands.py:214 | a plus sign before digits is accepted and changes nothing |
| Strings.ParseIntUnderscore | src/bot_commands.py:214 | an underscore between two runs of digits is skipped |
| Strings.ParseIntRejects | src/bot_commands.py:213-217 | these inputs give `ValueError`: an empty or blank text, a leading underscore, two underscores in a row, and whitespace between the sign and the digits |
| Strings.ParseNegativeDigits | src/bot_commands.py:214 | a minus sign followed by digits reads as minus their value, so a negative menu number is read, not refused |
| Strings.ParseIntOfToString | src/bot_commands.py:214 | `int(str(n))` is n for every integer n, signed ones included |
| Strings.Split | src/config.py:33 | `split(sep)` is never empty and no piece holds the separator |
| Strings.SplitJoin | src/config.py:33 | splitting a comma-joined list gives back its pieces when none holds a comma |
| Strings.StrLeTotal | src/scheduler.py:68 | string `<=` on ISO timestamps is a total order, so every entry is either before or since `today_start` |
| Strings.StrLeTrans | src/scheduler.py:70 | string order is transitive, which the newest-first ordering relies on |
| Collections.AppendRendered | src/scheduler.py:87-90 | the append loop leaves the list followed by one rendered line per item, in item order |
| Collections.RenderedAt | src/client_commands.py:36-41 | line k of a rendered list renders item k |
| Collections.SetDefaultAppendShape | src/scheduler.py:82 | `setdefault(k, []).append(x)` extends the list of an existing key in place, or adds the key last with `[x]` |
| Collections.CollectGroups | src/scheduler.py:78-82 | the grouping loop produces the dict specified by `GroupBy` |
| Collections.GroupByKeys | src/scheduler.py:78-82 | each key appears once, in order of first appearance among the values |
| Collections.GroupByTotal | src/scheduler.py:78-82 | no value is lost or repeated: the list lengths add up to the number of values |
| Collections.GroupByItems | src/bot_commands.py:613-616 | the list under each key is exactly the values with that key, in their original order |
| Collections.FirstKeysExact | src/bot_commands.py:613-616 | a key is in the dict exactly when some value has it |
| Collections.SortByFacts | src/bot_commands.py:619 | sorting orders the values by key and is a permutation of its input |
| Collections.SortBySorted | src/scheduler.py:70 | values already in order are left exactly as they are |
| Models.NewUser | src/models.py:11-21 | a new user is not paused and has language "en" unless one is given |
| Models.NewHistory | src/models.py:62-77 | a new history row keeps every given column, and its source is "realtime" unless given |
| Models.SameNameForTwoUsers | src/models.py:48-50 | two users may each watch a product of the same name |
| Models.SameNameForOneUser | src/models.py:48-50 | one user can never hold two products of the same name, whatever the other columns |
| Models.ChannelIndex | src/client_commands.py:76-77 | the lookup by identifier finds a row with that identifier, or proves no row has it |
| Models.ChannelById | src/client_commands.py:29-33 | the lookup by primary key returns a row with that id, or none exists |
| Models.UserById | src/client_commands.py:109 | the lookup by `user_id` returns a row with that id, or none exists |
| Models.ProductsOf | src/client_commands.py:105 | the user's products are exactly the rows whose `user_id` is that user |
| Models.NextChannelId | src/models.py:28 | a new primary key is larger than every existing one, so it is fresh |
| Models.Database.constructor | src/models.py:11-77 | an empty database has all five tables empty and satisfies every key and uniqueness invariant |
| Config.KeepIdsAppend | src/config.py:31-35 | tokens are filtered one by one: ids keep token order and repeated tokens give repeated ids |
| Config.KeepIdsOfTokens | src/config.py:31-35 | a token list in which every token is one id yields exactly those ids, in order |
| Config.IdTextIsId | src/config.py:32-34 | `str(n)` of a user id is a token that passes the digit filter and reads back as n |
| Config.KeepIdTexts | src/config.py:31-35 | the `str` of each id, filtered, gives the ids back |
| Config.AllowedUsersRoundTrip | src/config.py:31-35 | ids written comma-separated are read back exactly, in order and with duplicates |
| Config.SignedTokenDropped | src/config.py:34 | a token with a leading "-" or "+" is not an id |
| Config.PaddedToken | src/config.py:33 | spaces around a token are ignored: " 42 " is the id 42 |
| Config.SingleToken | src/config.py:31-35 | a value without a comma is one token, kept when its stripped form is all digits |
| Config.NoAllowList | src/config.py:31-35 | an unset or empty variable gives the empty allow-list |
| Config.Defaults | src/config.py:36-37 | the digest hour defaults to 21 and the time zone to "UTC" |
| Translations.Take2 | src/translations.py:184 | `lang_code[:2]` is a prefix of at most two characters |
| Translations.ResolveLang | src/translations.py:177-187 | the result is always a supported language; a supported two-letter prefix, lower-cased, is used; anything else gives "en" |
| Translations.ResolveLangIdempotent | src/translations.py:177-187 | resolving a resolved language gives it back |
| Translations.ResolveLangExamples | src/translations.py:182-187 | "it-IT" and "IT" give "it"; "fr" and a missing code give "en" |
| Translations.Table | src/translations.py:195 | the table used is the language's own exactly when it is supported, otherwise the English one |
| Translations.T | src/translations.py:190-201 | without arguments the template is returned unformatted; with arguments it is passed to `format` |
| Translations.UnsupportedIsEnglish | src/translations.py:195 | any message in an unsupported language reads exactly as in English |
| Translations.SupportedUsesOwnTable | src/translations.py:195-196 | a supported language shows its own wording of every catalogued message |
| Translations.MissingKeyIsItsName | src/translations.py:196-201 | a key no table defines is shown as its own name, in every language. Without arguments this always holds. With arguments it holds whenever the name has no braces for `format` to fill |
| PriceParser.SkipSpacesSpaces | src/price_parser.py:11 | what `\s*` skips is whitespace only |
| PriceParser.SkipSpacesUnique | src/price_parser.py:11 | the run of spaces ends at the first non-space, so its end is unique |
| PriceParser.NumberEndSound | src/price_parser.py:11 | the greedy reading of the number is a text of the number grammar: 1-3 digits, dotted groups of three, an optional comma with 1-2 digits |
| PriceParser.NumberLongest | src/price_parser.py:11 | any reading of the number grammar from the same position ends no later than the greedy one |
| PriceParser.NumberChars | src/price_parser.py:11 | a number starts with a digit and holds only digits, dots and commas |
| PriceParser.MarkerFirstChar | src/price_parser.py:11-13 | a currency marker starts with a character that is neither a space nor part of a number, so the two alternatives cannot overlap at one position |
| PriceParser.MatchAtSound | src/price_parser.py:9-16 | every match the scanner reports is a match of one of the two alternatives, markers read case-insensitively |
| PriceParser.SuffixComplete | src/price_parser.py:13 | where "number, spaces, marker" can match, the scanner reports the same capture |
| PriceParser.PrefixComplete | src/price_parser.py:11 | where "marker, spaces, number" can match, the scanner reports the same marker and a capture at least as long |
| PriceParser.MatchAtComplete | src/price_parser.py:9-16 | the scanner finds a match wherever the pattern can match, with the capture the backtracking engine keeps |
| PriceParser.FindIter | src/price_parser.py:27 | every match `finditer` reports can be converted |
| PriceParser.FindIterSound | src/price_parser.py:27 | the reported matches are pattern matches, lie left to right, and do not overlap |
| PriceParser.PatternMatchesExtractable | src/price_parser.py:27-29 | every pattern match is non-empty and has a capture `_to_float` accepts |
| PriceParser.CommaTail | src/price_parser.py:11 | in a number, the first comma is followed by one or two digits and nothing else |
| PriceParser.PlainShape | src/price_parser.py:21 | removing the dots and turning the comma into a point gives the euro digits, then a point and the cent digits when there is a comma |
| PriceParser.ToCentsValue | src/price_parser.py:19-21 | the value is the euro digits times 100 plus the cents: one fraction digit counts tens of cents, two count cents |
| PriceParser.PricesFromMatches | src/price_parser.py:27-30 | the prices are the converted captures of the reported matches, one for one and in order |
| PriceParser.PricesFromAtMatch | src/price_parser.py:27-30 | where the scanner finds a match, its price comes first and the rest follow from its end |
| PriceParser.ScanStep | src/price_parser.py:27-30 | one attempt of the scanner yields the prices up to the next position, which is strictly further on |
| PriceParser.ExtractPrices | src/price_parser.py:24-31 | the loop returns exactly the prices of the text, in order of appearance |
| PriceParser.NoMarkerNoMatch | src/price_parser.py:9-16 | with no currency marker from a position on, nothing is reported from there |
| PriceParser.MarkerlessText | src/price_parser.py:9-16 | a text without "€", "eur" or "euro" in any case, the empty text included, has no prices |
| PriceParser.ToCentsOfDigits | src/price_parser.py:19-21 | one to three bare digits are a number worth that many euros: "5" is 500 cents |
| PriceParser.ToCentsOfThousands | src/price_parser.py:19-21 | a dotted number without a fraction is whole euros: "1.234" is 123400 cents |
| PriceParser.ToCentsOfFormatEuro | src/price_parser.py:19-21 | every amount written as "1.234,56" is a number of the grammar and converts back to its cents |
| PriceParser.PricesAfterEuroSign | src/price_parser.py:11 | a number right after "€" is the one price of the text |
| PriceParser.PricesBeforeEuroSign | src/price_parser.py:13 | a number right before "€" is the one price of the text |
| PriceParser.FormattedAmountPrices | src/price_parser.py:9-16 | "€1.234,56" and "1.234,56€" both give exactly that amount |
| PriceParser.EuroSignThenLongNumber | src/price_parser.py:11 | after "€" an ungrouped number of four or more digits is cut to its first three: "€1234" is 123 euros |
| PriceParser.LongNumberThenEuroSign | src/price_parser.py:13 | before "€" the match starts at the last three digits of a long number: "1234€" is 234 euros |
| PriceParser.SkipLeadingDigits | src/price_parser.py:13 | positions more than three digits before the end of a digit run start no match |
| ChannelListener.RemoveDashesChars | src/channel_listener.py:20 | dropping `-` and `_` leaves no dash and adds no character |
| ChannelListener.CollapseCollapsed | src/channel_listener.py:21 | after `\s+` becomes one space, whitespace occurs only as single plain spaces |
| ChannelListener.NormalizeIsNormal | src/channel_listener.py:17-22 | the normal form has no upper-case letter, no `-` or `_`, no leading or trailing whitespace, and only single spaces |
| ChannelListener.NormalFixed | src/channel_listener.py:17-22 | a text already in normal form is its own normal form |
| ChannelListener.NormalizeIdempotent | src/channel_listener.py:19-21 | normalising twice is normalising once |
| ChannelListener.DashVanishes | src/channel_listener.py:20 | a hyphen or underscore vanishes without leaving a space: "i-Phone" reads as "iphone" |
| ChannelListener.SpaceRunCollapses | src/channel_listener.py:21 | two whitespace characters between words read as one, so "iPhone  15" matches "iphone 15" |
| ChannelListener.UnspacedNormal | src/channel_listener.py:17-22 | a text without whitespace only loses its case and its dashes, and its normal form has no space |
| ChannelListener.SpacedNameNeedsSpacedText | src/channel_listener.py:30-33 | a name whose normal form has a space never matches a text without whitespace: "iPhone15" does not match "iphone 15" |
| ChannelListener.NormalizeShorter | src/channel_listener.py:17-22 | the normal form is never longer than the text |
| ChannelListener.MinOf | src/channel_listener.py:37-41 | `min(prices)` is one of the prices and is at most every price |
| ChannelListener.CheckProductMatch | src/channel_listener.py:25-45 | a match implies that the normalised name occurs in the normalised text |
| ChannelListener.CheckProductMatchSpec | src/channel_listener.py:25-45 | a match happens exactly when the name occurs and, with a target, some price of the original text is at most the target; with no target no price is reported; with one, the lowest price is reported and it is within the target |
| ChannelListener.EmptyNameMatchesAll | src/channel_listener.py:30-33 | a name that normalises to nothing, such as "--", matches every text when there is no target |
| ChannelListener.CleanId | src/channel_listener.py:54-56 | `str(id)` loses exactly a leading "-100" and is otherwise kept |
| ChannelListener.CleanIdRoundTrip | src/channel_listener.py:54-56 | putting the removed prefix back and reading the number gives the channel id again |
| ChannelListener.PositiveIdKept | src/channel_listener.py:54-56 | an id without a sign is used as it is |
| ChannelListener.BuildMessageLink | src/channel_listener.py:48-58 | there is a link exactly when the username is non-empty or the id is non-zero; a username gives `https://t.me/<username>/<message>`, otherwise the cleaned id gives `https://t.me/c/<id>/<message>` |
| ChannelListener.LinkNamesMessage | src/channel_listener.py:48-58 | the last path segment of every link reads back as the message id |
| ChannelListener.UsernameWins | src/channel_listener.py:50-51 | with a username, the link does not depend on the id |
| ChannelListener.ChannelName | src/channel_listener.py:84 | the channel name is never empty: the title, else the username, else "Unknown channel" |
| ChannelListener.PossibleIds | src/channel_listener.py:95-99 | the ids tried are exactly the non-empty username and the non-zero id as text, at most two, none when neither exists |
| ChannelListener.LangOr | src/channel_listener.py:115 | the notification language is never empty: the stored code, else "en" |
| ChannelListener.FollowCount | src/channel_listener.py:102-110 | the join yields at most one row per membership |
| ChannelListener.FollowCountPositive | src/channel_listener.py:102-110 | the user has a row in the join exactly when one of their memberships names a channel with one of the ids |
| ChannelListener.CandidatesExact | src/channel_listener.py:101-112 | the products examined are exactly those whose owner exists, is not paused and follows the channel, each carrying the owner's language |
| ChannelListener.RecordOf | src/channel_listener.py:121-129 | the row for a match keeps the product, owner and price found, is tagged "realtime", and stores the first 500 characters of the text with the channel name and link |
| ChannelListener.MatchNotice | src/channel_listener.py:132-146 | the notification for a match goes to the product's owner |
| ChannelListener.RecordsSound | src/channel_listener.py:114-130 | every row added is a match of an examined product, tagged "realtime", with at most 500 characters of the message |
| ChannelListener.EveryMatchRecorded | src/channel_listener.py:114-130 | every match is recorded, whether or not its notification goes out |
| ChannelListener.StepsAgree | src/channel_listener.py:121-146 | without a failed send, one examined product gives a notification exactly when it gives a row, addressed to that row's user |
| ChannelListener.NoFailuresNotifyEveryMatch | src/channel_listener.py:114-148 | without failed sends, every row added is announced to its user, one notification per row, in the same order |
| ChannelListener.FailuresOnlyDropNotices | src/channel_listener.py:145-148 | failed sends never raise the number of notifications, and when no examined row's send fails the notifications are exactly those of a run without failures |
| ChannelListener.OnlyUnpausedFollowersRecorded | src/channel_listener.py:95-130 | a paused user, or one following neither the channel's username nor its id, gets no row |
| ChannelListener.HandleRows | src/channel_listener.py:114-148 | the loop adds the rows specified by `Records` and sends the notifications specified by `Notices` |
| ChannelListener.OnChannelMessage | src/channel_listener.py:78-148 | only the history table changes: it gains exactly the rows `Records` gives for the rows of the query (none for an empty text or a channel without username and id), and the notifications sent are those `Notices` gives |
| ClientCommands.ChannelDisplay | src/client_commands.py:37-40 | a channel with a title shows "title (identifier)", otherwise its identifier |
| ClientCommands.DisplayNamesChannel | src/client_commands.py:37-40 | every line names the channel's identifier, after the title when there is one |
| ClientCommands.UserChannels | src/client_commands.py:29-34 | the query yields at most one channel per membership |
| ClientCommands.UserChannelsExact | src/client_commands.py:29-34 | a channel is listed exactly when the user has a membership for it |
| ClientCommands.ListChannels | src/client_commands.py:26-41 | one line per row of the query, in order, each the channel's display |
| ClientCommands.Link | src/client_commands.py:85-91 | after linking, the pair is present, no pair is lost and no other pair is added |
| ClientCommands.UpsertFacts | src/client_commands.py:75-81 | a row is added only for an identifier not yet in the table, and the id returned is that of a row with the identifier |
| ClientCommands.UpsertTitle | src/client_commands.py:82-83 | an existing title is never overwritten, a missing one is filled from a non-empty title, and other rows are untouched |
| ClientCommands.UpsertIdempotent | src/client_commands.py:75-83 | repeating the upsert with the same title changes nothing and returns the same id |
| ClientCommands.UpsertKeepsUnique | src/client_commands.py:75-83 | the upsert keeps channel ids and identifiers unique |
| ClientCommands.LinkFacts | src/client_commands.py:85-91 | linking twice is linking once, and the membership pairs stay unique |
| ClientCommands.JoinChannel | src/client_commands.py:43-95 | on an RPC error the result is failure with an empty identifier and no table changes; otherwise the channel is upserted under `str(chat.id)` for an invite or the identifier, the user is linked, and the database stays valid |
| ClientCommands.LeaveChannel | src/client_commands.py:189-196 | success formats the channel into the success message; an RPC error gives the failure message |
| ClientCommands.BackfillLang | src/client_commands.py:109-110 | notifications use the user's stored language, or "en" for an unknown user |
| ClientCommands.EntityName | src/client_commands.py:119 | the channel name is the entity's title, else the identifier typed |
| ClientCommands.BackfillLinkAgrees | src/client_commands.py:139-147 | the link built inline in the scan equals the live handler's link for every username, id and message |
| ClientCommands.BackfillRecord | src/client_commands.py:149-158 | the row for a match keeps product, owner and price found, is tagged "backfill", and holds the first 500 characters of the post |
| ClientCommands.BackfillNotice | src/client_commands.py:164-176 | the notification for a match goes to the product's owner |
| ClientCommands.ScanLength | src/client_commands.py:123-184 | the scan covers at most `limit` posts and stops at an interruption, and covers all available posts up to `limit` otherwise |
| ClientCommands.ScanPost | src/client_commands.py:127-179 | the inner loop adds the rows and sends the notifications specified for one post |
| ClientCommands.ScanPosts | src/client_commands.py:123-161 | the outer loop covers the posts up to the scan length, skipping textless ones, and adds exactly their rows |
| ClientCommands.PostRecordsSound | src/client_commands.py:135-158 | every row for a post is a match of one of the products, tagged "backfill", named after the channel, with at most 500 characters |
| ClientCommands.ScanRecordsSound | src/client_commands.py:123-161 | the same holds for every row of the whole scan |
| ClientCommands.EveryPostMatchRecorded | src/client_commands.py:135-159 | every match of a product in a post is recorded |
| ClientCommands.NoBotNoNotices | src/client_commands.py:164 | without the bot the scan sends nothing, whatever it records |
| ClientCommands.NotifiesEveryMatch | src/client_commands.py:161-179 | with the bot and no failed send, each recorded row is announced to its user, one for one and in order |
| ClientCommands.ScanPrefix | src/client_commands.py:181-187 | an interrupted scan keeps what it recorded before the interruption: fewer posts give a prefix of the rows |
| ClientCommands.CountBound | src/client_commands.py:161 | the count is at most `limit` times the number of products |
| ClientCommands.BackfillOnlyForUser | src/client_commands.py:105 | a backfill for a user records rows for that user's products only |
| ClientCommands.BackfillScan | src/client_commands.py:109-121 | the scan context carries the channel name, the user's language and the entity resolved |
| ClientCommands.Backfill | src/client_commands.py:97-187 | with no products or no entity nothing changes and 0 is returned; otherwise exactly the scan's rows are appended to the history, the count equals their number, and no other table changes |
| Scheduler.NextFire | src/scheduler.py:42-47 | the hour is valid exactly when there is a next instant; it lies after now, at most a day later, at `hour`:00:00 |
| Scheduler.NextFireEarliest | src/scheduler.py:42-47 | no earlier instant after now falls at `hour`:00:00, so the wait is the shortest one |
| Scheduler.PriceTextNotAvailable | src/scheduler.py:88 | "N/A" is shown exactly for a missing or zero price |
| Scheduler.PriceTextValue | src/scheduler.py:88 | any other price is shown as whole units, a point and two digits that read back as its value |
| Scheduler.ProductName | src/scheduler.py:80-81 | a match is listed under its product's name, or "???" when no product has that id |
| Scheduler.RecentOf | src/scheduler.py:64-69 | the user's entries are exactly their history rows whose `found_at` is not before `today_start` |
| Scheduler.EntriesExact | src/scheduler.py:64-72 | the entries are those rows, each once, ordered from the newest `found_at` to the oldest |
| Scheduler.Shown | src/scheduler.py:87 | `matches[:5]` is the first five matches, or all of them when there are fewer |
| Scheduler.GroupLinesShape | src/scheduler.py:86-92 | a product shows its heading, at most five matches in order, and a line counting the rest exactly when it has more than five |
| Scheduler.DigestGroups | src/scheduler.py:78-84 | the products appear once each in order of first appearance among the newest-first entries, each with exactly its entries, and their counts add up to the header's |
| Scheduler.Digest | src/scheduler.py:64-75 | a user gets a digest exactly when they have an entry since `today_start` |
| Scheduler.RenderGroup | src/scheduler.py:85-92 | the lines of one product are the ones specified by `GroupLines` |
| Scheduler.RenderDigest | src/scheduler.py:78-92 | the `by_product` dict built by `setdefault().append` renders to the digest lines specified |
| Scheduler.CollectRecipients | src/scheduler.py:59-60 | the recipients are the unpaused users, in table order, with their language or "en" |
| Scheduler.RecipientsExact | src/scheduler.py:59-60 | every unpaused user is a recipient, no paused one is, and every language is non-empty |
| Scheduler.SendSummaries | src/scheduler.py:53-98 | the digests sent are exactly those specified by `Delivered` for the recipients |
| Scheduler.DeliveredSound | src/scheduler.py:74-98 | only a recipient with entries whose send does not fail is sent anything, and what is sent is that recipient's digest |
| Scheduler.DeliveredComplete | src/scheduler.py:74-98 | every recipient with entries whose send does not fail is sent its digest |
| Scheduler.OnlyUnpausedWithMatches | src/scheduler.py:59-75 | a digest reaches only an unpaused user with a match since `today_start` |
| Scheduler.FailuresIsolated | src/scheduler.py:94-98 | a failed send loses only that user's digest; the others are delivered as if nothing had failed |
| Scheduler.WithoutChatsExact | src/scheduler.py:94-98 | the digests kept are exactly those not addressed to a failing chat |
| BotCommands.IsAuthorized | src/bot_commands.py:39-43 | everyone is allowed when the allow-list is empty; otherwise exactly the listed ids, and never an unknown sender |
| BotCommands.AuthorizedByEnvironment | src/bot_commands.py:39-43 | with `ALLOWED_USERS` unset the bot serves everyone; with a comma-separated list of ids, exactly those users |
| BotCommands.StripFirstPrefix | src/bot_commands.py:118-121 | what remains is a suffix of the text |
| BotCommands.StripFirstPrefixNone | src/bot_commands.py:118-121 | without a matching prefix the text is kept |
| BotCommands.StripFirstPrefixAt | src/bot_commands.py:118-121 | only the first matching prefix in list order is removed |
| BotCommands.StripPrefixLoop | src/bot_commands.py:118-121 | the loop with `break` computes `StripFirstPrefix` |
| BotCommands.NormalizedPlain | src/bot_commands.py:107-124 | a bare name without link prefix, "@" or surrounding whitespace is left as it is |
| BotCommands.NormalizedAfterPrefix | src/bot_commands.py:107-124 | after the first matching link prefix, one "@" is dropped too and the rest is stripped |
| BotCommands.NormalizeIdentifier | src/bot_commands.py:107-124 | the steps in order compute the normalised identifier |
| BotCommands.Classify | src/bot_commands.py:126-142 | classification of a normalised identifier never cancels |
| BotCommands.JoinNameExactly | src/bot_commands.py:139-142 | a name is joined by username exactly when it matches the channel pattern, and it is joined as typed |
| BotCommands.JoinInviteExactly | src/bot_commands.py:126-136 | an invite is joined exactly for a valid non-empty hash after "+" or "joinchat/", and the hash is what follows that prefix |
| BotCommands.EmptyHashRefused | src/bot_commands.py:133-142 | "+" and "joinchat/" alone fall through to the channel-name pattern and are refused |
| BotCommands.AddChannelTarget | src/bot_commands.py:98-142 | the command is cancelled exactly for a cancel word |
| BotCommands.CancelIgnoresCase | src/bot_commands.py:21-22 | a reply and its lower-case form are both cancel (skip) words or neither is |
| BotCommands.ParseChoice | src/bot_commands.py:213-221 | a non-integer is an invalid choice; an integer n is chosen exactly when 1 <= n <= the list length, selecting index n - 1; any other integer is out of range |
| BotCommands.ChoiceRoundTrip | src/bot_commands.py:409-417 | typing the number shown in front of item k selects item k |
| BotCommands.ChoiceOutOfRange | src/bot_commands.py:464-471 | zero, negative numbers and numbers past the list are out of range, not invalid |
| BotCommands.CategoryOf | src/bot_commands.py:286-288 | a skip word gives no category; anything else is stored lower-cased |
| BotCommands.NextProductId | src/models.py:52 | a new product id is larger than every existing one |
| BotCommands.WatchFacts | src/bot_commands.py:294-344 | a row is added exactly when the lower-cased name is new for the user; it holds the lower-cased name, target and category, and the keys stay unique |
| BotCommands.WatchIgnoresCase | src/bot_commands.py:294-301 | watching a name again in another case is refused, while another user may still watch it |
| BotCommands.Watch | src/bot_commands.py:294-344 | the product is added exactly when the user does not yet watch the lower-cased name; only the products table changes and the database stays valid |
| BotCommands.RemoveFirstExact | src/bot_commands.py:229-235 | with unique pairs, removing a link removes exactly that pair and keeps every other membership |
| BotCommands.Unlink | src/bot_commands.py:227-235 | the delete removes the user's link to the channel; the channel row and all other tables stay, and the database stays valid |
| BotCommands.MenuLinesAt | src/bot_commands.py:195-200 | line k of the menu shows the number k + 1 and the k-th channel's display |
| BotCommands.RemovePrompt | src/bot_commands.py:203 | no table holds the prompt's key, so the bare key is passed to `format` together with the menu |
| BotCommands.RemovePromptIsKey | src/bot_commands.py:203 | the user receives the text `remove_channel_prompt`: no menu line and no digit of it, whatever channels they follow |
| BotCommands.RemoveChoice | src/bot_commands.py:207-227 | a channel is chosen exactly when the reply is no cancel word and a number in range, and it is one of the listed rows |
| BotCommands.MenuNumberSelects | src/bot_commands.py:195-227 | typing the number the menu shows in front of a channel selects that channel |
| BotCommands.RemoveChosenOnly | src/bot_commands.py:186-235 | the chosen channel is one the user follows, and removing it keeps every other membership |
| BotCommands.CategoryLabel | src/bot_commands.py:615 | a product's category, or the translated "uncategorized" label when it has none |
| BotCommands.CategoryBlock | src/bot_commands.py:620-622 | a category shows one heading line and one line per product |
| BotCommands.CategoriesFacts | src/bot_commands.py:613-619 | categories come sorted, each with exactly the products carrying its label in query order, and every product appears under its label |
| BotCommands.ListCategories | src/bot_commands.py:598-623 | the reply is "no_products_short" for a user without products, else the header followed by each category's block, in sorted order |

## Left out

- Telegram itself: connecting, event registration, `get_entity`, `iter_messages`, joining and leaving
  requests, and sends. Their outcomes are parameters: a chat, a list of posts, the index of an
  interruption, a join reply, and the set of sends that raise.
- The scheduler's `while True` loop and its `asyncio.sleep`: `NextFire` models one wait; the wait
  itself is not modelled.
- The 0.5 s pause after each backfill notification, the 60 s conversation timeouts, and the
  single flood-wait retry in `src/bot.py`. These are timing, not logic.
- `datetime.now`, `ZoneInfo` and daylight saving time. The scheduler works on integer local seconds.
  `today_start` and `found_at` are strings compared with string order, as the query does.
- Floating point. Prices are integer cents. The price grammar has at most two fraction digits, so
  this is exact. Target prices are taken in cents: the `float()` parsing of a typed target in
  `/watch` (it accepts "nan", "inf" and exponents) is not modelled.
- `:.2f` formatting is modelled on cents: whole units, a point and two digits.
- `str.format` is the `format` parameter of a `Catalogue`, and the wording of the messages is its
  `wording` parameter.
- The key sets of the "en" and "it" tables are equal by construction: one `Message` datatype serves
  both. The wording of the two tables is not modelled.
- The suggested-price dialogue of `/watch`, which depends on `'suggested_price' in dir()`.
- `register_user_if_not_exists`. The user's language comes in as a parameter.
- The replies of the handlers for `/start`, `/help`, `/stats`, `/history`, `/list_products`,
  `/pause` and `/unwatch`, and their rendering. `/unwatch` and `/history` are covered only through
  `ParseChoice`.
- The "removed" reply of `/remove_channel`.
- SQLAlchemy sessions, commits and migrations. The tables are sequences in table order, and that
  order stands in for the unspecified order of queries without `ORDER BY`.
- The ordering of the backfill's per-match commits is not modelled: all rows of a scan are
  appended at once.
- Foreign keys and cascading deletes.
- Unicode outside ASCII. `lower()` and `\s` are the ASCII ones (`\s` is 9-13 and 28-32), and `\d`
  is 0-9.
- `getattr` defaults on chats without a given attribute: an absent attribute is `None`.
- A `ValueError` raised by `get_entity` for an unknown username is not modelled: an unresolved
  entity is an RPC error, after which the backfill returns 0.
- ChannelListener.FailuresOnlyDropNotices: states that failures never add notifications, and that
  without a failing row the notifications are unchanged. It does not state which notification
  each failure loses; Scheduler.FailuresIsolated states that for the digest.
- Config.GetEnv, Config.SummaryHour, Config.Timezone: `load_dotenv`, `mkdir` and the other settings
  of `src/config.py` are not modelled. `int()` of a bad `DAILY_SUMMARY_HOUR` is `None` rather than
  an exception at import.
- `src/auth.py`, `src/dev.py`, `src/generate_string_session.py` and `src/database.py` are not part
  of this model.
