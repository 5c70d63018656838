# Isubata in Dafny

Isubata is the chat service of the ISUCON7 qualifying round. Users register, log in and post messages to channels. They read a channel from an incremental fetch that starts after the last message id they have seen. They page back through its history 20 messages at a time. A polling browser client shows an unread badge for every other channel. The server stores one read cursor (the "haveread" row) per user and channel. The service is written five times over the same MySQL schema: in Go (the reference), Node, Python, PHP and Ruby. A benchmark drives it and scores it.

This project models that core and proves properties of it:

- **`Store`** (`store.dfy`): the tables and the SQL queries the handlers issue. A `Db` class holds the tables, and its methods are the INSERT and upsert statements. Message ids are AUTO_INCREMENT, so table order is id order.
- **`Engine`** (`engine.dfy`): what every server computes, stated once.
  - The incremental fetch: the newest 100 messages after the cursor, in ascending order.
  - The unread counts.
  - The history paging: 20 per page, `maxPage = max(ceil(cnt / 20), 1)`.
  - The lemmas that tie these together.
- **`GoApp`, `NodeApp`, `PythonApp`, `PhpApp`, `RubyApp`**: the handlers of each server, as written in that language. Each is proved to compute the `Engine` functions. The places where the five differ are stated per server:
  - when the cursor is written;
  - how a page parameter is parsed;
  - how many characters `random_string` returns;
  - which avatar extensions are accepted.
- **`ChatClient`** (`chat_client.dfy`): the browser's polling state as a class:
  - the timeline, capped at 100 messages;
  - a read position that never falls;
  - the loading flag, which allows at most one poll cycle in flight;
  - the badges.
- The benchmark:
  - **`Scenario`**: the checks on server answers. Each check comes with a lemma that a server behaving as modelled passes it.
  - **`Structure`**: the shared state. This covers the user pools, the channel partition, and the register of sent messages with the per-channel bounds `msgCntMin <= msgCntMax`.
  - **`Checker`**: host balancing, the guarded error log, and the status and Location checks.
  - **`Counter`**: the request counter and its prefix sums.
  - **`UrlCache`**: the URL cache.
  - **`Sample`**: the driver's load list, error policy, level-up rule, summary and score.
  - **`Dataset`**: the data set builders.
- **`Text`, `Base`**: shared helpers. These hold decimal printing, trimming, splitting and reversal. They also hold one reading of an integer string per runtime, over ASCII digits and white space:
  - Go's `strconv.ParseInt`, with its int64 range check;
  - JavaScript's `parseInt`, with the `0x` prefix;
  - Python's `int()` and Ruby's `to_i`, with underscores between digits.
- **`Numbers`** (`numbers.dfy`): exact decimal numbers and three readings of a whole string as a number, over ASCII digits and white space:
  - MySQL's, used where Node and PHP hand a request string to an integer column. A comparison reads the string's leading number with its fraction and exponent, so "1.5" equals no id and "1e1" equals 10. An INSERT stores that number rounded. In strict mode, an INSERT or UPDATE fails when the string holds no number or has text after it.
  - PHP 7's, in `is_numeric` and the `(int)` cast. `is_numeric` accepts leading white space, a sign and a numeral with fraction and exponent, and nothing after it. The cast (PHP 7.1 and later) reads the same leading numeral and truncates it toward zero, so "1.9" is 1 and "1e1" is 10.
  - JavaScript's ToNumber, used by `==` between a number and a string in the browser client: "1.0", "+1", "1e0" and "0x1" all equal 1.

Outside inputs are parameters:

- **Password hashing**: a function `sha1`.
- **Randomness**: the sequence of draws or the permutation a random source would produce.
- **The clock**: the current time `now`.
- **The user list of the data set**: its lines.

What each server does with a fetch that returns no rows:

- **Node, Python and PHP** upsert the cursor to 0, so a later unread count falls back to the channel total.
- **Go** writes the cursor only when rows came back.
- **Ruby** answers 500 before any upsert, because it looks the authors up with an empty `IN ()` list.

## Model

| member | source | states |
|---|---|---|
| Text.Split | bench/src/bench/dataset.go:47 | the parts hold no separator, there is at least one, and joining them with the separator gives the string back |
| Text.Trim | bench/src/bench/scenario.go:1579 | the result is the slice of the input after its leading white space, followed only by white space, and neither starts nor ends with white space |
| Text.TrimIdempotent | bench/src/bench/scenario.go:1579 | trimming twice is trimming once |
| Text.NatToStringInjective | bench/src/bench/dataset.go:200 | different numbers print differently |
| Text.DigitsValueOfNatToString | bench/src/bench/scenario.go:1723 | the printed number reads back as itself |
| Text.GoParseInt | webapp/go/src/isubata/app.go:498 | succeeds only on a non-empty string with a value in int64, refuses anything but a sign and digits, and reads a string of digits as its value exactly when that value fits in int64 |
| Text.JsParseInt | webapp/nodejs/index.js:310 | a string of digits parses to its value; without a `0x` prefix the result is the decimal prefix reading; a number comes out only when the string holds a digit |
| Text.PyInt | webapp/python/app.py:185 | a string of digits converts to its value; a result comes out only when, after trimming and the sign, the whole rest is one underscore-separated digit run |
| Text.GoRefusesPastInt64 | webapp/go/src/isubata/app.go:379-382 | a printed number above the int64 maximum is refused, as ParseInt's range error |
| Text.DecimalPrefix | webapp/nodejs/index.js:310 | the reading parseInt falls back to without a `0x` prefix (leading white space, a sign and the longest digit run): a string of digits reads as its value, and a number comes out only when the string holds a digit |
| Text.JsParseIntHex | webapp/nodejs/index.js:310 | `0x` followed by hexadecimal digits reads as their hexadecimal value |
| Text.JsParseIntHexDigit | webapp/nodejs/index.js:310 | `0x` and a decimal digit is that digit to parseInt and 0 to the decimal prefix reading |
| Text.DigitRun | webapp/ruby/app.rb:255 | the digits of the longest prefix of digits with single underscores between them: only digits, empty exactly when the string does not start with a digit, and it stops at a non-digit that is not an underscore before a digit |
| Text.DigitRunOfDigits | webapp/ruby/app.rb:255 | a plain string of digits is one run, read whole |
| Text.RubyToI | webapp/ruby/app.rb:255 | a string of digits converts to its value, and one without a leading digit run converts to 0 |
| Text.UnderscoreBetweenDigits | webapp/ruby/app.rb:160 | two digits with an underscore between them, such as "1_0", are one number to to_i and to int() (10), while parseInt stops at the underscore (1) |
| Text.DoubleUnderscoreEndsDigits | webapp/python/app.py:198-199 | two underscores in a row are an error to int() and end the number for to_i |
| Text.LeadingSpaces | bench/src/bench/scenario.go:1579 | the count of leading white space characters: all of them are white space and the next character is not |
| Text.LastDot | webapp/python/app.py:350 | the last dot of a name made of a stem, a dot and a dot-free rest is the one after the stem |
| Text.ParsersReadPrintedNumbers | bench/src/bench/scenario.go:1723 | a page number the benchmark prints is read back unchanged by the Go parser up to the int64 maximum and by the Node, Ruby and Python parsers, and passes the Ruby digit check |
| Text.SplitExt | webapp/python/app.py:350 | the extension is empty or starts with the name's last dot and ends the name, and a name without a dot has none |
| Text.SplitExtOfStem | webapp/python/app.py:350 | a stem that is not all dots, followed by a dot and a dot-free rest, has exactly that extension |
| Text.SplitOfJoin | bench/src/bench/dataset.go:47 | splitting parts joined by a separator that none of them holds gives the parts back |
| Text.NatToString | bench/src/bench/dataset.go:200 | the decimal printing of a number: all digits, with no leading zero |
| Text.Count | bench/src/bench/structure.go:330 | `strings.Count` of one character: no more than the length, and 0 exactly when the character is absent |
| Text.CountIsMultiplicity | bench/src/bench/structure.go:330 | the count is the number of times the character occurs |
| Numbers.PhpReadsPrintedNumbers | bench/src/bench/scenario.go:1723 | a page number the benchmark prints passes PHP's `is_numeric` and is read back unchanged by its `(int)` cast |
| Numbers.Truncate | webapp/php/index.php:209 | the integer part toward zero: for a non-negative decimal the largest integer not above it, for a negative one the smallest not below it, and the decimal's own value when it is an integer |
| Numbers.PhpIntCast | webapp/php/index.php:209 | `(int)` of a string with no leading numeral is 0; a string MySQL finds equal to an integer casts to that integer; a non-negative leading numeral casts to its floor, the bound MySQL's `id > ?` uses |
| Numbers.PhpReadsNumeral | webapp/php/index.php:313-316 | a string that starts with a digit and a numeral is numeric exactly when the numeral is the whole string, and casts to the numeral's floor |
| Numbers.PhpReadsDigits | webapp/php/index.php:313-316 | a string of digits is numeric and casts to its value |
| Numbers.PhpNumericForms | webapp/php/index.php:313-316 | "a.b" is numeric and casts to a; "aeb" is numeric and casts to a times ten to the b, so "1e1" is 10; " a" is numeric and casts to a |
| Numbers.PhpNoDigits | webapp/php/index.php:313 | the empty string and a lone point are not numeric, and the empty string casts to 0 |
| Numbers.PhpDigitThenOther | webapp/php/index.php:313 | a digit followed by a character that is neither a digit nor a point ("1a", "1e", "1 ") is not numeric |
| Numbers.MySqlEquals | webapp/nodejs/index.js:232 | `channel_id = ?` with a string: the integer the string's MySQL reading (its leading number, with fraction and exponent) equals, and none when it equals no integer, as for "1.5" |
| Numbers.MySqlAboveIsComparison | webapp/nodejs/index.js:232 | `id > ?` with a string holds for an integer id exactly when the id is above the floor of the string's reading |
| Numbers.MySqlStored | webapp/nodejs/index.js:64 | the integer stored for a string in an integer column: the string's value whenever it reads as an integer |
| Numbers.MySqlStoresEqual | webapp/nodejs/index.js:232-256 | a string that reads as the integer v is stored as v, and `id > ?` with it compares with v |
| Numbers.MySqlReadsDigits | webapp/php/index.php:228-232 | a string of digits reads as its value: it equals, bounds and is stored as that value, and strict mode stores it |
| Numbers.MySqlReadsNumeral | webapp/php/index.php:228-232 | a string starting with a numeral reads as that numeral: it equals an id only when the numeral is an integer, bounds ids by its floor, is stored rounded, and strict mode stores it exactly when only white space follows |
| Numbers.MySqlFraction | webapp/nodejs/index.js:232 | "d.d" with a non-zero fraction equals no id, bounds ids by its integer part, is stored rounded half up, and strict mode accepts it |
| Numbers.MySqlExponent | webapp/nodejs/index.js:232 | "de" followed by a digit reads as d times ten to that power |
| Numbers.MySqlTrailingText | webapp/php/index.php:252-256 | a digit followed by text that is no part of a numeral reads as the digit, and strict mode refuses to store it |
| Numbers.Floor | webapp/nodejs/index.js:232 | the largest integer not above the decimal |
| Numbers.BelowIsAboveFloor | webapp/nodejs/index.js:232 | an integer is above a decimal exactly when it is above the decimal's floor |
| Numbers.IntegerValue | webapp/nodejs/index.js:232 | the integer equal to the decimal, and none when the decimal is no integer |
| Numbers.Round | webapp/nodejs/index.js:64 | the nearest integer, halves rounded away from zero |
| Numbers.IntegerRounds | webapp/nodejs/index.js:64 | a decimal equal to an integer rounds and floors to it |
| Numbers.JsToNumber | webapp/public/js/chat.js:130 | ToNumber of a blank string is 0 |
| Numbers.JsToNumberOfDigits | webapp/public/js/chat.js:130 | ToNumber reads a string of digits as its decimal value |
| Numbers.JsDigitsEqual | webapp/public/js/chat.js:130 | a number `==` a string of digits exactly when it is the string's value |
| Numbers.JsOtherSpellingsOfOne | webapp/public/js/chat.js:130 | 1 `==` "+1", "1.0", "1e0" and "0x1" |
| Numbers.JsTrailingText | webapp/public/js/chat.js:130 | a digit followed by text that is no part of a numeral is NaN to ToNumber, so no number `==` it |
| Store.Filter | webapp/go/src/isubata/app.go:125-130 | a message is selected exactly when it is in the table, in channel `ch` and has an id above `after`; the result is no longer than the table |
| Store.FilterIncreasing | webapp/go/src/isubata/app.go:127 | on a table in id order (AUTO_INCREMENT), the selected rows come back in strictly increasing id order |
| Store.InChannel | webapp/go/src/isubata/app.go:466-468 | a message is selected exactly when it is in the table and in channel `ch` |
| Store.FilterZeroIsInChannel | webapp/go/src/isubata/app.go:460-470 | with positive ids, "id > 0" selects the whole channel, so a cursor of 0 and no cursor count the same rows |
| Store.NewestDesc | webapp/go/src/isubata/app.go:125-130 | `ORDER BY id DESC LIMIT n` yields at most `n` rows, each in the channel with an id above `after` |
| Store.PageDesc | webapp/go/src/isubata/app.go:519-521 | `ORDER BY id DESC LIMIT n OFFSET o` yields at most `n` rows |
| Store.UserById | webapp/go/src/isubata/app.go:96-105 | a user is found only with the requested id, and nothing is found exactly when no row has that id |
| Store.UserByName | webapp/go/src/isubata/app.go:306 | a user is found only with the requested name, and nothing is found exactly when no row has that name |
| Store.KeepUpTo | webapp/go/src/isubata/app.go:205-211 | `DELETE ... WHERE id > bound` keeps a prefix of the table, every kept row has an id up to `bound`, and on an id-ordered table every such row is kept, still in order |
| Store.CountUpTo | webapp/go/src/isubata/app.go:206-209 | the rows before the returned index all have ids up to the bound, and the row at it does not |
| Store.ImageByName | webapp/go/src/isubata/app.go:688-689 | an image is found only under the requested name, and nothing is found exactly when no row has it |
| Store.MessagesPruned | webapp/go/src/isubata/app.go:209-210 | deleting messages above a bound and every haveread row keeps the message table well formed |
| Store.UsersPruned | webapp/go/src/isubata/app.go:206 | deleting users above a bound keeps names unique and ids increasing and positive |
| Store.ChannelsPruned | webapp/go/src/isubata/app.go:208 | deleting channels above a bound keeps channel ids increasing and positive |
| Store.ImagesPruned | webapp/go/src/isubata/app.go:207 | deleting images above a bound keeps image ids increasing |
| Store.Db.Initialized | webapp/go/src/isubata/app.go:205-211 | `/initialize` keeps users up to 1000, images up to 1001, channels up to 10 and messages up to 10000, empties haveread and leaves the AUTO_INCREMENT counters alone; the database stays well formed |
| Store.Db.AddMessage | webapp/go/src/isubata/app.go:107-115 | the insert appends exactly one row with the next id, and changes no other table |
| Store.Db.UpsertHaveRead | webapp/go/src/isubata/app.go:400-403 | the cursor of (user, channel) becomes the given id whatever it was before (last write wins, no `max`), and nothing else changes |
| Store.Db.AddUser | webapp/go/src/isubata/app.go:189-203 | a taken name is refused with nothing changed; otherwise one user with the next id and the `default.png` icon is appended |
| Store.Db.AddChannel | webapp/go/src/isubata/app.go:613-616 | the insert appends exactly one channel with the next id and changes no other table |
| Store.Db.AddImage | webapp/go/src/isubata/app.go:665 | the insert appends exactly one image row and changes no other table |
| Store.Db.SetDisplayName | webapp/go/src/isubata/app.go:676 | only the display name of the user with that id changes |
| Store.Db.SetAvatarIcon | webapp/go/src/isubata/app.go:669 | only the avatar icon of the user with that id changes |
| Engine.FetchIsNewest | webapp/nodejs/index.js:232-251 | the fetch holds min(unread, 100) messages, in increasing id order, all in the channel and after the cursor, and every matching message left out is older than every one returned |
| Engine.Fetch | webapp/go/src/isubata/app.go:125-130 | min(unread, 100) messages, each in the table, in the channel and after the cursor |
| Engine.LastNNewest | webapp/nodejs/index.js:232-252 | in id order, the largest id among the last rows is the last row's id |
| Engine.FetchNewestIsLastFiltered | webapp/nodejs/index.js:232-252 | a non-empty fetch's largest id is that of the newest matching message |
| Engine.CursorAfter | webapp/nodejs/index.js:252 | 0 for no rows, otherwise one of the row ids and never below any of them |
| Engine.LastNIncreasing | webapp/nodejs/index.js:232 | the newest rows of an id-ordered list are still in id order |
| Engine.DroppedRowsAreOlder | webapp/nodejs/index.js:232 | a matching row that the LIMIT drops is older than every row kept |
| Engine.MaxId | webapp/nodejs/index.js:252 | `Math.max(...ids)` is one of the ids and no id exceeds it |
| Engine.MaxIdIsLast | webapp/nodejs/index.js:252 | in id order, the largest id is that of the last row |
| Engine.MaxIdReverse | webapp/nodejs/index.js:251-252 | reversing the rows does not change their largest id |
| Engine.NewestFirstIsCursor | webapp/nodejs/index.js:232-252 | the DESC query is the fetch reversed, and its first row carries the largest fetched id |
| Engine.LastFilteredIsNewest | webapp/nodejs/index.js:232 | no message of the channel is newer than the last row selected after the cursor |
| Engine.FetchCatchesUp | webapp/nodejs/index.js:252-256 | after a non-empty fetch, the stored cursor leaves no unread message in the channel |
| Engine.NothingAfter | webapp/nodejs/index.js:289 | when no message of the channel is above the cursor, the count after it is 0 |
| Engine.FetchAfterPost | webapp/nodejs/index.js:207-232 | once the cursor is at the newest message, the next fetch returns exactly the one new post |
| Engine.CursorOfNewestDesc | webapp/nodejs/index.js:252-256 | the cursor computed from the DESC rows equals the newest id of the fetch (or 0), and it is 0 or an id the store handed out |
| Engine.UnreadAfterPost | webapp/nodejs/index.js:285-302 | a post raises the unread count of its own channel by one and leaves the others unchanged |
| Engine.ZeroCursorCountsAll | webapp/nodejs/index.js:285-293 | a cursor of 0 counts the whole channel, the same as no cursor row: an empty fetch that stores 0 makes every message unread again |
| Engine.Cursor | webapp/nodejs/index.js:286-288 | a cursor exists exactly when the haveread row of the user and channel does, and it is that row's message id |
| Engine.Unread | webapp/nodejs/index.js:288-292 | no larger than the table, and 0 exactly when every message of the channel is at or below an existing cursor |
| Engine.ChannelIds | webapp/nodejs/index.js:279-281 | one id per channel row, in row order |
| Engine.UnreadCounts | webapp/nodejs/index.js:285-302 | one entry per channel, in channel order, whose count is the messages after the cursor, or the whole channel without a haveread row |
| Engine.PagesFor | webapp/nodejs/index.js:316 | `ceil(cnt / 20)`: enough pages for every message, and not one more than needed |
| Engine.MaxPage | webapp/nodejs/index.js:316 | `max(ceil(cnt / 20), 1)` is at least 1 |
| Engine.PageInRange | webapp/nodejs/index.js:318 | a page is served exactly when it was read, is at least 1, and is 1 or starts before the channel's messages run out |
| Engine.PageStartsInChannel | webapp/nodejs/index.js:316-318 | from page 2 on, being at most maxPage is the same as starting before the channel's messages run out |
| Engine.HistoryPage | webapp/nodejs/index.js:323 | at most 20 messages, all in the table and in the channel |
| Engine.PageThenRest | webapp/nodejs/index.js:323 | page p followed by the newer pages is the run of the channel that page p starts |
| Engine.HistoryPageIsSlice | webapp/nodejs/index.js:323-342 | page p, reversed to oldest first, is the contiguous run of the channel ending (p-1)*20 messages before its newest |
| Engine.PagesThroughIsSuffix | webapp/nodejs/index.js:323 | pages p down to 1, laid end to end, are the newest p*20 messages of the channel in order |
| Engine.HistoryPagesCoverChannel | webapp/nodejs/index.js:313-342 | pages maxPage down to 1 show every message of the channel exactly once, in chronological order |
| Engine.HistoryPageSize | webapp/nodejs/index.js:316-323 | every page before the last holds 20 messages; the last holds 1 to 20, and none in an empty channel |
| Engine.Jsonify | webapp/nodejs/index.js:237-245 | the JSON row keeps the message's id and content, and has an author exactly when the author row exists |
| Engine.Render | webapp/nodejs/index.js:236-248 | one JSON row per message, in the same order |
| Engine.RenderNewestFirst | webapp/nodejs/index.js:234-251 | the loop over the DESC rows, followed by `reverse()`, yields the JSON of the rows oldest first |
| Engine.RenderedFetchAscending | webapp/nodejs/index.js:232-257 | the JSON list of a fetch is in strictly increasing id order |
| Engine.LastDescription | webapp/nodejs/index.js:111-123 | without a matching channel the description is "" |
| Engine.FirstDescription | webapp/python/app.py:118-129 | without a matching channel the description is "" |
| Engine.DescriptionOfChannel | webapp/nodejs/index.js:114-119 | with unique channel ids, the last-match loop and the first-match-then-break loop both find the description of the channel shown |
| Engine.LastDescriptionOf | webapp/nodejs/index.js:114-119 | the last-match loop returns the description of the one channel with that id |
| Engine.FirstDescriptionOf | webapp/python/app.py:122-127 | the first-match loop returns the description of the one channel with that id |
| Engine.UpdatedProfile | webapp/nodejs/index.js:436-443 | only the row of the logged-in user changes, and only in the icon and display name given |
| Engine.NonEmpty | webapp/nodejs/index.js:441 | a display name counts exactly when it is not empty |
| Engine.ApplyProfile | webapp/nodejs/index.js:436-443 | the image row is added when avatar data is given, the icon and display name are updated, and messages, haveread and channels are untouched |
| Engine.MimeOfExt | webapp/nodejs/index.js:449-461 | a MIME type exactly for .jpg, .jpeg, .png and .gif, and image/jpeg exactly for the first two |
| NodeApp.RandomString | webapp/nodejs/index.js:81-88 | `while (--len)` appends len - 1 characters, each the seed character drawn; len must be at least 1 because 0 never stops |
| NodeApp.SessionUser | webapp/nodejs/index.js:197-202 | a user is found only for a non-zero session naming a row with that id, and none exactly when the session is 0 or no row has that id |
| NodeApp.PageParam | webapp/nodejs/index.js:310 | an absent page is 1, a string of digits is its value, and a number comes out only when the page holds a digit |
| NodeApp.PostRegister | webapp/nodejs/index.js:145-160 | an empty name or password is 400 and a taken name is 409, both with the user table unchanged; otherwise exactly one user with the next id, a 19-character salt of digits and letters, digest sha1(salt + password), the name as display name and the `default.png` icon is appended and logged in; nextUserId rises by one exactly on success, and every other table and counter is unchanged |
| NodeApp.PostLogin | webapp/nodejs/index.js:167-187 | the answer logs in exactly when the user exists and the digest of salt + password matches; otherwise 403 |
| NodeApp.PostMessage | webapp/nodejs/index.js:195-210 | no user for the session, an empty channel_id or an empty message is 403 with the message table and nextMessageId unchanged; otherwise exactly one message with the next id, the channel_id as MySQL stores a string in an integer column (`Numbers.MySqlStored`), the session user and the content is appended, nextMessageId rises by one and the answer is 204; users, haveread, channels, images and the other counters are unchanged |
| NodeApp.ZeroPadd | webapp/nodejs/index.js:212-214 | the result is all digits and exactly `digit` long (the whole number when `digit` is 0) |
| NodeApp.ZeroPaddKeepsValue | webapp/nodejs/index.js:212-214 | a number of at most `digit` digits is padded with zeros on the left and reads back as itself |
| NodeApp.GetMessage | webapp/nodejs/index.js:223-260 | no session is 403 with haveread unchanged; otherwise the answer is the newest 100 messages whose channel equals channel_id and whose id is above last_message_id, both compared as MySQL compares a string with an integer column (`Numbers.MySqlEquals`, `Numbers.MySqlAbove`), rendered oldest first; the haveread row of the user and the stored channel_id becomes the newest fetched id or 0, whatever it was; every other table and counter is unchanged |
| NodeApp.FetchUnread | webapp/nodejs/index.js:270-305 | no session is 403; otherwise one count per channel, in table order, after the cursor or over the whole channel |
| NodeApp.GetHistory | webapp/nodejs/index.js:307-352 | no session redirects to /login; a page that parseInt (decimal, or hexadecimal after `0x`) reads as NaN, below 1 or above max(ceil(cnt/20), 1) is 400, where cnt counts the messages whose channel MySQL finds equal to channelId; otherwise that page of those messages oldest first, with the page number and maxPage |
| NodeApp.ChannelListInfo | webapp/nodejs/index.js:111-123 | the loop keeps the description of the last channel with the focus id, which with unique ids is that channel's description |
| NodeApp.ExtName | webapp/nodejs/index.js:416 | the extension starts at the last dot, has no other dot and ends the name; a name without a dot has none |
| NodeApp.ExtNameOfStem | webapp/nodejs/index.js:416 | a non-empty stem followed by a dot and a dot-free rest has exactly that extension |
| NodeApp.AvatarName | webapp/nodejs/index.js:432 | the stored name of an upload with an accepted extension has that extension again |
| NodeApp.AvatarNameIsServed | webapp/nodejs/index.js:432 | the stored avatar name holds a double dot, yet its extension is still the uploaded one, so `/icons` serves it with a MIME type |
| NodeApp.PostProfile | webapp/nodejs/index.js:394-447 | an unknown user is 403; a named upload with another extension or above 1 MiB is 400 with nothing changed; otherwise the image row and icon are stored, a non-empty display name replaces the old one, and the answer redirects to "/" |
| NodeApp.GetIcon | webapp/nodejs/index.js:463-476 | 404 exactly when the image row is missing or the extension has no MIME type; otherwise the row's data with that type |
| GoApp.RandomString | webapp/go/src/isubata/app.go:179-187 | a buffer filled in a loop: exactly n letters or digits, the i-th picked by the i-th draw |
| GoApp.EnsureLogin | webapp/go/src/isubata/app.go:151-175 | a user comes back only for a non-zero session that names a row of the user table; otherwise nobody is logged in |
| GoApp.PostRegister | webapp/go/src/isubata/app.go:271-288 | an empty name or password is 400 and a taken name is 409, both with the user table unchanged; otherwise exactly one user with the next id, a 20-character salt of letters and digits, digest sha1(salt + password) and the `default.png` icon is appended and logged in; nextUserId rises by one exactly on success, and every other table and counter is unchanged |
| GoApp.UserByNameAppend | webapp/go/src/isubata/app.go:189-203 | after a user with a fresh name is appended, looking that name up finds it |
| GoApp.PostLogin | webapp/go/src/isubata/app.go:298-319 | login succeeds exactly when both fields are given, the user exists and its digest matches; the failure code is 400 for an empty field and 403 otherwise |
| GoApp.LoginAfterRegister | webapp/go/src/isubata/app.go:189-203 | a user that registers with a fresh name can log in with the same name and password |
| GoApp.PostMessage | webapp/go/src/isubata/app.go:328-351 | no login redirects to /login; an empty message or a channel_id that is not an int64 integer is 403; in both the message table is unchanged; otherwise exactly one message with the next id, the parsed channel, the session user and the content is appended and the answer is 204; nextMessageId follows the rows added, and users, haveread, channels, images and the other counters are unchanged |
| GoApp.JsonifyOldestFirst | webapp/go/src/isubata/app.go:390-397 | the backwards loop yields the rows oldest first, and fails exactly when some row's author is unknown |
| GoApp.AuthorsKnownReversed | webapp/go/src/isubata/app.go:385-397 | reversing the rows changes neither whether an author is unknown nor the rows themselves after a second reversal |
| GoApp.UnknownAuthorReversed | webapp/go/src/isubata/app.go:385-397 | newest first, some row has an unknown author exactly when the rows oldest first do not all have known authors |
| GoApp.GetMessage | webapp/go/src/isubata/app.go:369-410 | no session is 403; a channel_id or last_message_id that is not an int64 integer, or an unknown author, is 500; in these cases haveread is unchanged; otherwise the fetch oldest first, and the cursor moves to its newest id only when it is non-empty; the other tables and every counter are unchanged |
| GoApp.QueryHaveRead | webapp/go/src/isubata/app.go:418-437 | a missing haveread row reads as 0 |
| GoApp.GoUnread | webapp/go/src/isubata/app.go:456-466 | no larger than the table, and 0 exactly when every message of the channel is at or below a positive cursor |
| GoApp.GoUnreadAgrees | webapp/go/src/isubata/app.go:456-466 | counting after a positive cursor, else the whole channel, is the shared unread rule when ids are positive |
| GoApp.UnreadCounts | webapp/go/src/isubata/app.go:452-473 | the loop gives one entry per channel, in query order, each with Go's unread count |
| GoApp.FetchUnread | webapp/go/src/isubata/app.go:439-480 | no session is 403; otherwise one entry per channel whose count is the shared unread rule |
| GoApp.PageParam | webapp/go/src/isubata/app.go:493-502 | an empty page is 1; a page read is an int64; anything but a sign and digits is refused; digits up to the int64 maximum read as their value |
| GoApp.GoMaxPage | webapp/go/src/isubata/app.go:510-513 | (cnt + 19) / 20 raised to 1 is max(ceil(cnt / 20), 1) |
| GoApp.GetHistory | webapp/go/src/isubata/app.go:482-549 | a channel id that is not a positive int64 integer is 400 before the login check; no login redirects; a page that is not an int64 integer, below 1 or above maxPage is 400; otherwise that page oldest first, with page and maxPage |
| GoApp.HistoryPageResponse | webapp/go/src/isubata/app.go:518-547 | the page's rows, read newest first with the offset, render oldest first, or 500 for an unknown author |
| GoApp.TRange | webapp/go/src/isubata/app.go:715-721 | the array holds exactly a, a + 1, ..., b in order |
| GoApp.AvatarExt | webapp/go/src/isubata/app.go:636-646 | an accepted extension is one of the four image types and ends the file name; a name without a dot has none |
| GoApp.AvatarExtOfStem | webapp/go/src/isubata/app.go:636-646 | any name ending in one of the four image extensions is accepted with exactly that extension |
| GoApp.PostProfile | webapp/go/src/isubata/app.go:624-683 | no login redirects; a bad extension or more than 1 MiB is 400 with nothing changed; otherwise a non-empty avatar is stored as its digest plus extension and becomes the icon, and a non-empty display name replaces the old one |
| GoApp.IconMime | webapp/go/src/isubata/app.go:697-706 | a MIME type exists exactly for names ending in one of the four image extensions |
| GoApp.IconMimeOfExt | webapp/go/src/isubata/app.go:697-706 | a name ending in one of the four image extensions has that extension's MIME type |
| GoApp.GetIcon | webapp/go/src/isubata/app.go:685-709 | 404 exactly when there is no image of that name or no MIME type; otherwise a stored image's data with that type |
| GoApp.AcceptedAvatarIsServed | webapp/go/src/isubata/app.go:642-706 | the name under which an accepted avatar is stored is served with the MIME type of its extension |
| PythonApp.RandomString | webapp/python/app.py:93-94 | exactly n characters, each the letter or digit its draw picks |
| PythonApp.IntParam | webapp/python/app.py:199-200 | a missing parameter is refused; a string of digits reads as its value; a value comes out only when, after trimming and the sign, the rest is one run of digits with single underscores between them |
| PythonApp.PostMessage | webapp/python/app.py:180-189 | no session, or a channel_id that int() rejects, is 500 before anything else is checked; a missing user, an empty message or channel 0 is 403; in both the message table is unchanged; otherwise exactly one message with the next id, the parsed channel, the session user and the content is appended and the answer is 204; nextMessageId follows the rows added, and users, haveread, channels, images and the other counters are unchanged |
| PythonApp.GetMessage | webapp/python/app.py:192-221 | no session (or id 0) is 403; a missing channel_id or last_message_id, or one that int() rejects, is 500; in both haveread is unchanged; otherwise the fetch oldest first, and the cursor is written even for an empty fetch, as its newest id or 0; the other tables and every counter are unchanged |
| PythonApp.FetchUnread | webapp/python/app.py:224-250 | no session is 403; otherwise one entry per channel, in table order, with the shared unread rule |
| PythonApp.PageParam | webapp/python/app.py:256-261 | an absent or empty page reads as 1; a page is accepted exactly when it is all digits, and then reads as its value |
| PythonApp.GetHistory | webapp/python/app.py:253-291 | no login or a vanished user redirects; a non-numeric page or one outside [1, max_page] is 400; otherwise that page oldest first with max_page = ceil(cnt / 20), at least 1 |
| PythonApp.ChannelListInfo | webapp/python/app.py:118-129 | the loop stops at the first channel with the focus id, which with unique ids is that channel's description |
| PythonApp.Truthy | webapp/python/app.py:371 | a display name counts exactly when it is present and non-empty, and then it is kept as given |
| PythonApp.PostProfile | webapp/python/app.py:329-375 | no login redirects; a named upload with another extension or more than 1 MiB is 400 with nothing changed; a non-empty accepted upload is stored as its digest plus extension and becomes the icon; a non-empty display name replaces the old one |
| PythonApp.GetIcon | webapp/python/app.py:388-397 | 404 exactly when there is no row or the extension has no MIME type; otherwise the row's data with that type |
| PythonApp.AvatarIsServed | webapp/python/app.py:350-396 | the name a stored avatar gets splits back into its extension, which has a MIME type |
| PhpApp.RandomString | webapp/php/index.php:104-111 | `while ($length--)` tests before it decrements, so exactly $length characters, each the one its draw picks |
| PhpApp.Falsy | webapp/php/index.php:210 | a string PHP reads as false casts to 0, and every string of two or more characters is true |
| PhpApp.CookieUser | webapp/php/index.php:69-74 | the user found has an id MySQL finds equal to the cookie, and none is found exactly when no user's id is |
| PhpApp.CookieStoresUser | webapp/php/index.php:76-80 | a cookie that names a user is stored in the user_id column as that user's id |
| PhpApp.PostMessage | webapp/php/index.php:206-216 | no user whose id MySQL finds equal to the cookie, a channel_id that the `(int)` cast (`Numbers.PhpIntCast`: the leading numeral with fraction and exponent, truncated toward zero) makes 0, or a message PHP reads as false (including "0") is 403; a cookie that strict-mode MySQL will not store in the integer user_id column fails the INSERT with 500; in both the message table and nextMessageId are unchanged; otherwise exactly one message with the next id, the cast channel, the cookie user's id and the content is appended, nextMessageId rises by one and the answer is 204; every other table and counter is unchanged |
| PhpApp.MaxMessageId | webapp/php/index.php:247-250 | the fold of max from 0 over the fetched ids is 0 for no rows, otherwise the largest id (never below 0) |
| PhpApp.MaxIdSnoc | webapp/php/index.php:248-250 | the largest id of a longer list is the larger of the previous largest and the new id |
| PhpApp.GetMessage | webapp/php/index.php:218-258 | a falsy cookie is 403; a cookie or channel_id that strict-mode MySQL will not store in an integer column fails the haveread INSERT with 500; in both haveread is unchanged; otherwise the newest 100 messages whose channel MySQL finds equal to channel_id and whose id it finds above last_message_id, oldest first; an absent last_message_id is bound as NULL, which no id is above, so the answer is empty; the cursor of the stored cookie and channel_id is written even for an empty fetch, as 0; the other tables and every counter are unchanged |
| PhpApp.FetchUnread | webapp/php/index.php:260-304 | a falsy cookie is 403; otherwise one entry per channel, in table order, counting the messages after the haveread row whose user_id MySQL finds equal to the cookie, or the whole channel when there is no such row (a cookie such as "1.5" equals no id) |
| PhpApp.LoggedInExactly | webapp/php/index.php:82-95 | a user is logged in exactly when the cookie is truthy and MySQL finds it equal to some user's id |
| PhpApp.PageParam | webapp/php/index.php:311-316 | an absent page is 1; a page reads as a number exactly when is_numeric accepts it; digits read as their value |
| PhpApp.CeilMaxPage | webapp/php/index.php:321-326 | ceil(cnt / 20), raised to 1, is maxPage |
| PhpApp.GetHistory | webapp/php/index.php:310-366 | no logged-in user (a falsy cookie, or one MySQL finds equal to no user id) redirects; a page that is_numeric refuses (the empty string too) or one outside [1, maxPage] is 400; otherwise that page of the messages whose channel MySQL finds equal to channelId, oldest first, with maxPage = ceil(cnt / 20), at least 1 |
| Engine.HistoryResponse | webapp/php/index.php:331-363 | the page's rows, read newest first with the offset, render oldest first |
| PhpApp.PathExt | webapp/php/index.php:438 | the extension has no dot; a name with a dot ends in a dot and the extension, so it is what follows the last dot; a name without a dot has none |
| PhpApp.Ext2Mime | webapp/php/index.php:472-485 | a MIME type exists exactly for the four image extensions |
| PhpApp.Truthy | webapp/php/index.php:462 | a display name counts exactly when it is present and neither "" nor "0", and then it is kept as given |
| PhpApp.PostProfile | webapp/php/index.php:419-470 | no logged-in user redirects; an upload with another extension or more than 1 MiB is 400 with nothing changed; otherwise truthy file contents are stored as an image row named digest . '.' . ext, which becomes the icon, and a truthy display name replaces the old one; when something is to be updated and the cookie has text after its number, strict-mode MySQL fails the UPDATE with 500 and the user table is unchanged; the image table and nextImageId grow by the stored row only, and every other table and counter is unchanged |
| PhpApp.GetIcon | webapp/php/index.php:487-501 | 404 exactly when there is no row or the extension is not an image type; otherwise the row's data with its type |
| PhpApp.AvatarIsServed | webapp/php/index.php:452-497 | the stored name digest . '.' . ext yields ext again, which has a MIME type |
| RubyApp.RandomString | webapp/ruby/app.rb:469-471 | the argument is ignored: always 20 characters, each the letter or digit its draw picks |
| RubyApp.Authors | webapp/ruby/app.rb:175 | one author id per row, in row order |
| RubyApp.Uniq | webapp/ruby/app.rb:175 | the same ids with no repeats, in the order of their first occurrence, and no more of them than before |
| RubyApp.FirstIndex | webapp/ruby/app.rb:175 | the position of the first occurrence, or the length when the id is absent |
| RubyApp.FirstIndexPrefix | webapp/ruby/app.rb:175 | an id present in a prefix has its first occurrence there |
| RubyApp.UniqOrderSnoc | webapp/ruby/app.rb:175 | one more id keeps the first-occurrence order of the ids already kept |
| RubyApp.UserByIdSnoc | webapp/ruby/app.rb:512-515 | looking up an id in a table with one more row finds the earlier row when there is one, else the new row when it matches |
| RubyApp.GetUsers | webapp/ruby/app.rb:509-518 | an empty id list is an SQL error; otherwise the dictionary maps exactly the listed ids that have a user row to that row's public fields |
| RubyApp.AuthorDictKeys | webapp/ruby/app.rb:509-518 | the dictionary holds only listed ids, and every listed id that has a user row |
| RubyApp.AuthorDictStep | webapp/ruby/app.rb:512-515 | one more user row adds its own id to the dictionary when that id is listed, and nothing else |
| RubyApp.FirstRowWins | webapp/ruby/app.rb:512-515 | with increasing ids, adding the next row adds only its own, new id to the lookups |
| RubyApp.DictJsonify | webapp/ruby/app.rb:177-185 | a rendered row keeps its id and content, and has an author exactly when the dictionary holds it |
| RubyApp.RenderWithDict | webapp/ruby/app.rb:176-188 | pushing each row and then `reverse!` yields the rows rendered in the opposite order |
| RubyApp.DictRenderIsRender | webapp/ruby/app.rb:175-183 | rendering a fetched row through the dictionary of the fetch's own authors is rendering it with the user table |
| RubyApp.RenderThroughDict | webapp/ruby/app.rb:175-188 | the whole response is the fetch rendered oldest first |
| RubyApp.PostMessage | webapp/ruby/app.rb:153-162 | a missing session, message or channel_id, or a vanished user, is 403 with the message table unchanged; otherwise exactly one message with the next id, the channel `to_i` reads, the session user and the content as given (even empty, or for channel 0) is appended and the answer is 204; nextMessageId follows the rows added, and every other table and counter is unchanged |
| RubyApp.GetMessage | webapp/ruby/app.rb:164-200 | no session is 403; an empty fetch (channel and cursor read by `to_i`) fails in SQL with 500; in both haveread is unchanged; otherwise the fetch oldest first and the cursor set to its newest id; the other tables and every counter are unchanged |
| RubyApp.FetchUnread | webapp/ruby/app.rb:203-238 | no session is 403; otherwise one entry per channel, in table order, with the shared unread rule |
| RubyApp.PageParam | webapp/ruby/app.rb:248-255 | a page that passes the benchmark's check is a non-negative number; an absent page is 1 |
| RubyApp.IntendedPageParam | webapp/ruby/app.rb:248-255 | the corrected check accepts only pages of at least 1, and agrees with the written one on every page it accepts |
| RubyApp.DoubleZeroPage | webapp/ruby/app.rb:252-258 | "00" passes the written check as page 0 and is refused by the corrected one |
| RubyApp.GetHistory | webapp/ruby/app.rb:241-284 | no user redirects; a failed page check or a page above max_page is 400; page 0 and a channel without a row are 500; otherwise that page oldest first with max_page = ceil(cnt / 20), at least 1 |
| RubyApp.HistoryOutcome | webapp/ruby/app.rb:241-284 | a successful answer has a page between 1 and max_page, a channel that exists and at most 20 messages |
| RubyApp.DisplayNameUpdate | webapp/ruby/app.rb:397-401 | the condition as written fails exactly when the name is missing, and otherwise writes it, even when empty |
| RubyApp.IntendedDisplayNameUpdate | webapp/ruby/app.rb:397-401 | the corrected step never fails and writes a name exactly when it is present and non-empty |
| RubyApp.DisplayNameCounterexamples | webapp/ruby/app.rb:397-401 | the two differ on a missing name (500 against nothing written) and on "" (written against nothing written), and agree on every non-empty name |
| RubyApp.PostProfile | webapp/ruby/app.rb:349-403 | no user redirects; a named upload with another extension or more than 1 MiB is 400 with nothing changed; otherwise the icon becomes digest + ext with no image row written, and the display-name step as written runs, answering 500 when it fails |
| ChatClient.JsMax | webapp/public/js/chat.js:16 | Math.max is NaN exactly when an argument is NaN, and otherwise the larger argument |
| ChatClient.ChannelSegmentFrom | webapp/public/js/chat.js:29-35 | the answer is "1", or the segment after a "channel" segment from i on that is not the last |
| ChatClient.NoChannelSegment | webapp/public/js/chat.js:27-35 | with no "channel" segment followed by another segment, the channel id is "1" |
| ChatClient.FirstChannelSegment | webapp/public/js/chat.js:29-33 | the first "channel" segment that is not the last decides the channel id: the segment after it |
| ChatClient.GetChannelId | webapp/public/js/chat.js:27-36 | the loop returns the segment after the first eligible "channel" segment, or "1" when there is none |
| ChatClient.ChannelPathRoundTrip | webapp/public/js/chat.js:27-36 | on the page /channel/<id>, with no '/' in the id, the client reads that id back |
| ChatClient.IsCurrent | webapp/public/js/chat.js:130 | `channel.channel_id == channel_id` for a number and the page's string: with a string of digits exactly when the number is its value, with a blank string exactly when the number is 0 |
| ChatClient.OtherSpellingsAreCurrent | webapp/public/js/chat.js:130 | channel 1 is current on the pages "+1", "1.0", "1e0" and "0x1" |
| ChatClient.TextAfterIsNotCurrent | webapp/public/js/chat.js:130 | no channel is current on the page "1abc", and channel 1 is not current on "1.5" |
| ChatClient.BadgeText | webapp/public/js/chat.js:135-139 | a badge is blank exactly for the current channel or no unread message; otherwise it shows the count in decimal |
| ChatClient.BadgesShowUnread | webapp/public/js/chat.js:129-140 | after a /fetch answer with each channel once, every listed channel shows the badge of its own entry |
| ChatClient.BadgesKeys | webapp/public/js/chat.js:134-139 | after the pass the badges exist for the old channels and for every channel of the answer, and no other |
| ChatClient.BadgesIsRebadge | webapp/public/js/chat.js:129-140 | the pass writes, entry by entry, the badge text of that entry |
| ChatClient.RebadgeShows | webapp/public/js/chat.js:129-140 | with each channel listed once, every listed channel ends with the badge of its own entry |
| ChatClient.BadgesKeepOthers | webapp/public/js/chat.js:129-140 | a channel missing from the answer keeps its badge |
| ChatClient.BadgesSnoc | webapp/public/js/chat.js:129-140 | one more entry rewrites just that channel's badge |
| ChatClient.UpdatedSnoc | webapp/public/js/chat.js:130-133 | one more entry sets the update flag exactly when it is the current channel with unread messages |
| ChatClient.UpdatedExactly | webapp/public/js/chat.js:130-133 | the flag is raised exactly when some entry is the current channel and has unread messages |
| ChatClient.ReadUnread | webapp/public/js/chat.js:127-140 | the forEach pass yields the badges of the whole answer and raises the flag exactly when an entry with unread messages is the current channel by JavaScript's `==` of a number and the page's string (`ChatClient.IsCurrent`) |
| ChatClient.LastIdNeverDecreases | webapp/public/js/chat.js:16 | while every shown id is a number, last_message_id stays a number, never goes down and is at least every shown id |
| ChatClient.NaNSticks | webapp/public/js/chat.js:16 | once last_message_id is NaN it stays NaN, whatever is shown |
| ChatClient.LastNSnoc | webapp/public/js/chat.js:17-20 | trimming to 100 after every append is trimming once at the end |
| ChatClient.AppendStep | webapp/public/js/chat.js:16-20 | one more append trims the timeline to the newest 100 of everything shown so far and makes last_message_id the max with the new id |
| ChatClient.Client.constructor | webapp/public/js/chat.js:105-117 | the page starts with an empty timeline, last_message_id 0, no polling and one request for the messages of its channel |
| ChatClient.Client.Append | webapp/public/js/chat.js:3-21 | the message is shown, the timeline keeps its newest 100, and last_message_id becomes the max with the message id |
| ChatClient.Client.AppendAll | webapp/public/js/chat.js:118 | showing messages one by one leaves the newest 100 of all and the max of every id |
| ChatClient.Client.OnFirstMessages | webapp/public/js/chat.js:117-122 | the first messages are shown and polling starts, with no cycle open |
| ChatClient.Client.Tick | webapp/public/js/chat.js:122-125 | a tick does nothing while a cycle is open or before polling starts; otherwise it opens a cycle with one /fetch |
| ChatClient.Client.OnUnread | webapp/public/js/chat.js:125-152 | the badges are rewritten for the answer; without an entry that is the current channel (by `==`) with unread messages the cycle closes and nothing is sent; otherwise /message is requested from last_message_id, except that a NaN id sends nothing and the cycle never closes; the timeline, last_message_id, the polling flag and the textarea are unchanged |
| ChatClient.Client.OnNewMessages | webapp/public/js/chat.js:142-148 | the new messages are shown and the cycle closes |
| ChatClient.Client.OnSendButton | webapp/public/js/chat.js:95-103 | an empty textarea sends nothing; otherwise its text is posted to the current channel and the textarea is cleared |
| Scenario.IdsOf | bench/src/bench/scenario.go:37-42 | one id per message, in order |
| Scenario.ValidateJsonMessages | bench/src/bench/scenario.go:30-52 | the list passes exactly when it is empty, or holds at most 100 messages whose ids start past the cursor, strictly increase and are all known; every failure is fatal |
| Scenario.CheckOrder | bench/src/bench/scenario.go:40-44 | the loop over neighbours accepts exactly the strictly increasing id lists |
| Scenario.AllKnown | bench/src/bench/scenario.go:45-50 | the loop accepts exactly when every message validates against the register |
| Scenario.CursorPassesAcceptedIds | bench/src/bench/scenario.go:30-52 | after an accepted list the client's cursor has not gone back, has moved for a non-empty list, and covers every id in it |
| Scenario.RowIds | bench/src/bench/scenario.go:37-42 | one id per row, in order |
| Scenario.ServerFetchIsAcceptable | bench/src/bench/scenario.go:30-44 | a server answering with the modelled fetch always passes the count and order part of the benchmark's check |
| Scenario.ScanItemStep | bench/src/bench/scenario.go:1578-1598 | the callback for one item computes that item's reading: an arrow sets its flag, the number 1 or the next page becomes the page, anything else is refused |
| Scenario.ValidateHistoryPagination | bench/src/bench/scenario.go:1572-1615 | the loop computes the strip's reading: the last page number, refused for a non-number that is not an arrow, a number out of sequence, no number at all, or arrows beside a single page |
| Scenario.ScanStopsAtError | bench/src/bench/scenario.go:1580-1592 | once an item is refused, the scan stops and the whole strip is refused |
| Scenario.PageNumbers | bench/src/bench/scenario.go:1578-1597 | the strip of page numbers 1 to k has k items |
| Scenario.TrimDigits | bench/src/bench/scenario.go:1578 | trimming leaves a number as it is |
| Scenario.PrintedNumberScans | bench/src/bench/scenario.go:1579-1597 | a printed page number is read as that number and accepted exactly when it is 1 or the next page |
| Scenario.PageNumbersAccepted | bench/src/bench/scenario.go:1572-1615 | a strip showing the pages 1 to k in order is read as k pages |
| Scenario.BrokenStripRefused | bench/src/bench/scenario.go:1591-1605 | a number out of sequence after 1..k, or an empty strip, is refused |
| Scenario.PagesMonotone | bench/src/bench/scenario.go:1671-1677 | the page bound grows with the message count |
| Scenario.RaisedIsMaxPage | bench/src/bench/scenario.go:1662-1677 | the benchmark's (n + 19) / 20, with 0 raised to 1, is the servers' max page |
| Scenario.ServerPageCountPlausible | bench/src/bench/scenario.go:1661-1680 | a server holding between the snapshot's lower and upper message counts shows a page count the benchmark's check accepts |
| Scenario.RandomPages | bench/src/bench/scenario.go:1694-1701 | the random mode asks for at most five distinct pages, each between 1 and maxPage |
| Scenario.HeadPages | bench/src/bench/scenario.go:1702-1709 | the head mode asks for up to five increasing pages from 1, each at most maxPage |
| Scenario.TailPages | bench/src/bench/scenario.go:1711-1717 | the tail mode as written counts down through up to five pages and reaches page 0 when there are fewer than five |
| Scenario.IntendedTailPages | bench/src/bench/scenario.go:1711-1717 | the corrected tail mode asks for up to five decreasing pages from maxPage, each between 1 and maxPage |
| Scenario.SelectPages | bench/src/bench/scenario.go:1694-1718 | each of the three loops yields its mode's pages, never more than five |
| Scenario.TailPagesReachZero | bench/src/bench/scenario.go:1711-1717 | with fewer than five pages the written tail mode asks for page 0, which no server accepts |
| Scenario.IntendedTailPagesExist | bench/src/bench/scenario.go:1711-1717 | every page the corrected tail mode asks for is one the server accepts |
| Scenario.CheckHistoryPage | bench/src/bench/scenario.go:1733-1810 | a page passes exactly when its contents are distinct and it holds 20 messages, or 1 to 20 on the last page; failures are fatal |
| Scenario.ServerPageSizeOk | bench/src/bench/scenario.go:1800-1810 | every page a server shows of a non-empty channel has the size the benchmark's check demands |
| Scenario.CheckUnreadCounts | bench/src/bench/scenario.go:1886-1920 | the answer passes exactly when every count lies within its channel's snapshot bounds; failure is fatal |
| Scenario.CheckPlusOne | bench/src/bench/scenario.go:2180-2197 | the answer passes exactly when the posted channel shows one more unread than before and no other channel shows fewer |
| Scenario.UnreadJson | bench/src/bench/scenario.go:1886-1920 | one decoded entry per channel |
| Scenario.ServerPassesPlusOne | bench/src/bench/scenario.go:2180-2197 | a reader whose cursors all predate a new post, and whose previous counts were the server's, passes the benchmark's check after the post |
| Scenario.CheckRedirectStatusCode | bench/src/bench/scenario.go:98-103 | exactly 302 and 303 pass; any other status is a non-fatal error |
| Structure.SubsetCard | bench/src/bench/structure.go:383-399 | a subset is no larger than its superset, the step behind the ordering of the two bounds |
| Structure.MinAtMostMax | bench/src/bench/structure.go:383-399 | while the bounds count the register, every channel's lower bound is between 0 and its upper bound |
| Structure.AddedEntry | bench/src/bench/structure.go:283-291 | a new text adds one begun message, and one completed message exactly when it is already complete |
| Structure.CountsAfterAdd | bench/src/bench/structure.go:274-296 | registering a new text keeps both bounds counting the register, raising the upper bound, and the lower one for a complete message |
| Structure.CountsAfterComplete | bench/src/bench/structure.go:298-307 | completing a begun message keeps the bounds counting the register, with only that channel's lower bound raised |
| Structure.RaisedGet | bench/src/bench/structure.go:283-291 | raising a channel adds one to its count and leaves every other count alone |
| Structure.RegisteredKeeps | bench/src/bench/structure.go:283-291 | registering a new message makes it findable and keeps every earlier entry |
| Structure.CompletedAdded | bench/src/bench/structure.go:283-291 | registering a new text adds it to the completed set exactly when it is complete |
| Structure.RegisteredMessageValidates | bench/src/bench/structure.go:310-332 | once a message is registered, the server's copy of it (content possibly padded with blanks, well-formed date, same author) validates in its channel |
| Structure.RegisteringKeepsOtherChannels | bench/src/bench/structure.go:310-332 | registering a message changes the verdict on no other channel's messages |
| Structure.State.ValidateJsonMessage | bench/src/bench/structure.go:310-337 | the message passes exactly when its channel has a register holding its trimmed content, by the same author, and its date has the shape "2018/04/21 17:11:28"; a passing message whose send began less than 200 ms ago adds one to "message-bonus", and the counter is otherwise unchanged |
| Structure.SwapRemove | bench/src/bench/structure.go:165-170 | swap-remove shortens the pool by one |
| Structure.SwapRemoveKeepsRest | bench/src/bench/structure.go:165-170 | swap-remove takes out exactly the chosen user, keeps every other position but the last, and moves the last user into the gap |
| Structure.PlaceAllPartitions | bench/src/bench/structure.go:137-148 | distributing the tmp ids puts every one of them in exactly one of the three lists and adds nothing else |
| Structure.PlaceAllCount | bench/src/bench/structure.go:137-148 | the three lists together grow by the number of ids placed |
| Structure.PlaceAllFillsInOrder | bench/src/bench/structure.go:137-148 | the active list fills up to 5 first, the message-check list grows only once it is full and then only up to 2 |
| Structure.OthersCount | bench/src/bench/structure.go:111-123 | every channel but the two picked ones goes to the inactive list |
| Structure.Permuted | bench/src/bench/structure.go:138-139 | the tmp ids in the order the permutation gives |
| Structure.Partition | bench/src/bench/structure.go:111-123 | the loop over the data set's channels enters each in the map, sends the channel at p[0] to the active list, the one at p[1] to the message-check list and every other one, in order, to the inactive list; with one channel only the active list grows, and p[1] is never read |
| Structure.EnterChannelsKeys | bench/src/bench/structure.go:114 | the map's keys after the loop are the old ones and the ids of the channels entered |
| Structure.EnterChannelsUnique | bench/src/bench/structure.go:114 | with distinct ids, every channel is found under its own id |
| Structure.PartitionStep | bench/src/bench/structure.go:112-123 | one turn of the channel loop enters the channel in the map and adds its id to the inactive list unless it is at p[0] or p[1] |
| Structure.NameIndexKeys | bench/src/bench/structure.go:125-127 | a name is in the index exactly when it was before or some user entered has it |
| Structure.NameIndexLast | bench/src/bench/structure.go:125-127 | a user whose name no later user repeats is the one the index holds for that name |
| Structure.InitMaps | bench/src/bench/structure.go:112-127 | every data set user is in the name index, the channel map's keys are the channels' ids, and with distinct ids each channel is under its own |
| Structure.RegisterAllHas | bench/src/bench/structure.go:129-134 | a message is registered after the loop exactly when it was before or a message of the list has its channel and text |
| Structure.FreshSnoc | bench/src/bench/structure.go:129-134 | a message not yet registered keeps the list so far free of duplicates |
| Structure.DuplicateNotFresh | bench/src/bench/structure.go:129-134 | a message already registered makes the whole list not fresh, so the loop ends with ok false |
| Structure.State.constructor | bench/src/bench/structure.go:98-110 | a new state has empty pools, maps, lists and register, and keeps the bounds invariant |
| Structure.State.PartitionChannels | bench/src/bench/structure.go:111-123 | the lists and the channel map change as Partition says, for any number of channels, and nothing else changes |
| Structure.State.Init | bench/src/bench/structure.go:98-135 | the pools grow by the data set's users and new users; the name index is the data set's users entered in order, a later user of the same name replacing an earlier one; the channel map holds exactly the data set's channels, each under its own id when ids are distinct; the channel at p[0] becomes active, the one at p[1] (when there are two or more) the message-check channel and all the others inactive, in order; ok holds exactly when no two data set messages share a channel and text, and then the register and both bounds are the messages folded into empty maps; the checker map is empty |
| Structure.State.Reset | bench/src/bench/structure.go:102-109 | the pools grow by the dataset's users, every map and the register start empty, and the channel lists are untouched |
| Structure.State.IndexUsers | bench/src/bench/structure.go:125-127 | the name index becomes the old one with the users entered in order, a later user of the same name replacing an earlier one (see `Structure.NameIndexKeys` and `Structure.NameIndexLast`); pools, channels, checkers and register are unchanged |
| Structure.State.LoadMessages | bench/src/bench/structure.go:129-134 | ok holds exactly when no message repeats a channel and text already registered or earlier in the list; then the register and both bounds are the old ones with every message folded in, every message is findable, and the bounds keep counting the register; pools, channels and checkers are unchanged |
| Structure.State.RegisterNext | bench/src/bench/structure.go:129-133 | one turn of the loop: a fresh message is registered and the register and bounds follow the fold one step further; a duplicate reports false and the list is not fresh |
| Structure.State.DistributeTmpChannelIds | bench/src/bench/structure.go:137-148 | the three lists become the old ones with the tmp ids placed in permutation order, and the tmp list stays |
| Structure.State.GetCheckerLocked | bench/src/bench/structure.go:217-227 | a user keeps the checker it has; a user without one gets a new one, distinct from every checker handed out |
| Structure.State.PopRandomUser | bench/src/bench/structure.go:156-173 | an empty pool gives nobody; otherwise the drawn user leaves the pool by swap-remove (the pool loses exactly that user) and comes back with its checker |
| Structure.State.PopNewUserLocked | bench/src/bench/structure.go:183-193 | an empty list gives nobody; otherwise the last new user leaves the list and comes back with its checker |
| Structure.State.PushUser | bench/src/bench/structure.go:202-208 | the user joins the end of the pool and is findable by name |
| Structure.State.AddChannel | bench/src/bench/structure.go:229-235 | the channel is findable by id and waits in the tmp list, so the total channel count grows by one |
| Structure.State.TotalChannelCount | bench/src/bench/structure.go:150-154 | 0 exactly when all four channel lists are empty, and never below the length of the tmp list |
| Structure.State.AddSendMessage | bench/src/bench/structure.go:274-296 | a text already in the channel is refused and nothing changes; otherwise it is registered, that channel's upper bound grows by one and its lower bound too for a complete message, and no other entry or channel changes |
| Structure.State.CompleteSend | bench/src/bench/structure.go:298-307 | the first completion raises that channel's lower bound by one and marks the message complete; a second changes nothing |
| Structure.State.SnapshotMessageCount | bench/src/bench/structure.go:383-399 | the copies are the two bounds, and in every channel the lower one is between 0 and the upper one |
| Sample.Copies | bench/src/cmd/sample.go:34-38 | n copies of a load function make a list of length n |
| Sample.AppendOneCopy | bench/src/cmd/sample.go:35-37 | one more turn of the loop appends one more copy |
| Sample.CopiesCount | bench/src/cmd/sample.go:34-38 | n copies of f hold f exactly n times and nothing else |
| Sample.AppendCopies | bench/src/cmd/sample.go:34-38 | registering f with weight n raises the number of f entries by n and changes no other entry's count |
| Sample.RegisteredOnceEach | bench/src/cmd/sample.go:474-477 | the four registrations of main add each scenario exactly once |
| Sample.Loader.constructor | bench/src/cmd/sample.go:34-42 | the pool of load functions starts empty |
| Sample.Loader.AddLoadFunc | bench/src/cmd/sample.go:34-38 | the pool grows by weight copies of f at its end, none for a weight of 0 or less |
| Sample.Loader.RegisterLoadFuncs | bench/src/cmd/sample.go:474-477 | the pool grows by the four scenarios, once each, in order |
| Sample.Loader.ChoiceLoadFunc | bench/src/cmd/sample.go:40-42 | the function drawn is one of the pool |
| Sample.PreTestChannels | bench/src/cmd/sample.go:77-87 | channels are added one at a time, each entering the tmp list, until the state holds 100; a failing add-channel check stops the loop with fewer than 100, and the three channel lists stay unchanged |
| Sample.ValidationOrderIsFixed | bench/src/cmd/sample.go:160 | as written, the loop runs the checks in the order 0 to 7 whatever permutation is drawn |
| Sample.ValidationOrderIgnoresDraw | bench/src/cmd/sample.go:160 | a permutation rand.Perm can draw (7 down to 0) is not the order the checks run in |
| Sample.IntendedValidationOrderCanStartAnywhere | bench/src/cmd/sample.go:160 | ranging over the permutation's values, any of the eight checks can come first |
| Sample.ValidationMain | bench/src/cmd/sample.go:159-212 | the checks run in order until the context is cancelled or a check fails fatally; that fatal error is returned, every earlier check was non-fatal, and otherwise the pass ends without an error |
| Sample.LevelUpDecision | bench/src/cmd/sample.go:243-270 | nothing happens exactly when level-up is disabled; otherwise the level rises exactly when neither an error nor a slow response happened in the last 5 seconds, and a recent error takes precedence over a slow path |
| Sample.LevelUpTick | bench/src/cmd/sample.go:243-270 | the tick decides from the error log and counts "load-level-up" exactly when the level rises |
| Sample.ErrorBlocksLevelUp | bench/src/cmd/sample.go:251-258 | an error logged less than 5 seconds ago blocks the level-up whatever the slow path |
| Sample.NotPrefixAt | bench/src/cmd/sample.go:282-295 | two strings differing inside the prefix do not share it |
| Sample.BucketIdempotent | bench/src/cmd/sample.go:281-298 | bucketing a key twice gives the bucket it first fell in |
| Sample.BucketNameIsFixed | bench/src/cmd/sample.go:281-298 | every bucket name falls in its own bucket |
| Sample.HistoryBucketIsPrefix | bench/src/cmd/sample.go:282-283 | a key falls in the history bucket exactly when it carries the prefix of GET /history/ requests |
| Sample.HistoryTotalIsPrefixSum | bench/src/cmd/sample.go:281-298 | the history bucket's total is the counter's own prefix sum for GET /history/ requests |
| Sample.SummaryStep | bench/src/cmd/sample.go:298 | adding one more key's count raises only its own bucket's total |
| Sample.TotaledAdd | bench/src/cmd/sample.go:298 | adding one more key's count to its bucket keeps the totals holding one entry per bucket seen, each the sum of the counts of its keys so far |
| Sample.SumsAdd | bench/src/cmd/sample.go:298 | the per-bucket sums stay right when one more key is added |
| Sample.UnseenBucketIsEmpty | bench/src/cmd/sample.go:298 | a bucket no key has fallen in so far totals 0 |
| Sample.BucketsOfAdd | bench/src/cmd/sample.go:298 | one more key adds only its own bucket |
| Sample.Summary | bench/src/cmd/sample.go:280-299 | the totals hold exactly the buckets of the keys, each with the sum of the counts of the keys that fall in it |
| Sample.Entries | bench/src/cmd/sample.go:307-309 | one pair per bucket, each with its total, no bucket twice |
| Sample.SortDescending | bench/src/cmd/sample.go:311 | sorting puts the pairs in descending order of count and keeps the same pairs |
| Sample.InsertDescending | bench/src/cmd/sample.go:311 | one insertion step extends the sorted prefix by one entry and keeps the same pairs |
| Sample.CounterSummary | bench/src/cmd/sample.go:279-325 | the summary lists every bucket of a key, with the sum of its keys, largest total first, and no bucket twice |
| Sample.PermutedEntries | bench/src/cmd/sample.go:279-325 | sorting a map's entries, listed with each key once, lists them again with each key once and each with its own value |
| Sample.Score | bench/src/cmd/sample.go:398-403 | the score is GET requests minus /fetch and 304s, plus 3 per POST, plus the messages read, plus one per hundred 304s |
| Sample.GoDiv | bench/src/cmd/sample.go:398-403 | Go's integer division truncates toward zero: the remainder has the sign of the dividend and is smaller than the divisor |
| Sample.ScoreOf | bench/src/cmd/sample.go:398-403 | an empty counter scores 0 |
| Sample.ScoreAfterInc | bench/src/cmd/sample.go:398-403 | one more request changes the score by its key's weight: 1 for a GET other than /fetch, nothing for /fetch, 3 for a POST, 1 per message read |
| Dataset.ReverseRunes | bench/src/bench/dataset.go:28-34 | swapping runes pairwise from both ends yields the string reversed |
| Dataset.JoinStartsWithFirst | bench/src/bench/dataset.go:47 | a string split at a separator starts with its first part, followed by the separator when there are more parts |
| Dataset.UserNameOf | bench/src/bench/dataset.go:47 | the user name is the part of the address before the first '@': it holds no '@', starts the address, and is followed by '@' when shorter |
| Dataset.PasswordIsPalindrome | bench/src/bench/dataset.go:51 | a password, the name followed by its reverse, reads the same backwards, is twice as long as the name and starts with it |
| Dataset.UserOfWellFormed | bench/src/bench/dataset.go:44-53 | every data set user's password is the password of its name, and its name is the '@'-free start of its address |
| Dataset.PrepareUsers | bench/src/bench/dataset.go:36-61 | the first 1000 lines become the registered users and the rest the new users, both in file order, each built from its own line |
| Dataset.PrepareMessages | bench/src/bench/dataset.go:180-192 | exactly 10000 messages, the i-th by user i mod n, in channel 1 to 10 as drawn, made of the three drawn texts, all already delivered |
| Dataset.DeliveredMessagesAreCountedExactly | bench/src/bench/dataset.go:189-190 | with every registered message delivered, as in the data set, each channel's lower and upper bounds agree |
| Dataset.PrepareChannels | bench/src/bench/dataset.go:196-205 | ten channels with ids 1 to 10, each named and described after its number |
| Dataset.ChannelNamesDistinct | bench/src/bench/dataset.go:199-201 | different channel numbers give different channel names |
| Dataset.GenSalt | bench/src/bench/dataset.go:218-224 | exactly n runes, each the letter its draw picks |
| Checker.SumUpdate | bench/src/bench/checker.go:76-93 | changing one host's count changes the total by the difference |
| Checker.Balancer.constructor | bench/src/bench/checker.go:55-60 | every target host starts with no request in flight |
| Checker.Balancer.GetFreeHostId | bench/src/bench/checker.go:82-93 | the chosen host has the fewest requests in flight; it is the drawn host whenever that one has the fewest, else the first host with the fewest; only its count rises, by one |
| Checker.Balancer.DecRequestCount | bench/src/bench/checker.go:76-80 | only the host's count falls, by one |
| Checker.ErrorLog.constructor | bench/src/bench/checker.go:39-44 | the log starts empty and unguarded |
| Checker.ErrorLog.AppendError | bench/src/bench/checker.go:176-182 | the error is appended unless the guard is up, and the log holds only checker errors |
| Checker.ErrorLog.GuardCheckerError | bench/src/bench/checker.go:184-188 | the guard is set and the log kept |
| Checker.ErrorLog.UpdateLastSlowPath | bench/src/bench/checker.go:124-130 | the last slow path and its time are recorded, and nothing else changes |
| Checker.ErrorLog.GetLastCheckerError | bench/src/bench/checker.go:190-200 | nothing for an empty log, else the newest error with its own time |
| Checker.ErrorLog.GetCheckerErrors | bench/src/bench/checker.go:202-210 | the copy is the log, in order |
| Checker.ErrorLog.OnError | bench/src/bench/checker.go:274-289 | a checker error comes back as it is and is not logged again; anything else is wrapped with the time and the request (the action's method and path without one), logged unless guarded, and is fatal exactly when the original was |
| Checker.IsFatal | bench/src/bench/checker.go:167-170 | a fatal error is neither a timeout nor a plain failure |
| Checker.IsTimeout | bench/src/bench/checker.go:172-174 | a timeout is neither fatal nor a wrapped checker error |
| Checker.UrlPath | bench/src/bench/checker.go:424-441 | the path read from a Location has no query and no fragment |
| Checker.CutAt | bench/src/bench/checker.go:437-438 | the part before the first occurrence of the character: it holds no such character, and is the whole string when there is none |
| Checker.ResponseError | bench/src/bench/checker.go:424-441 | a status of 500 or more is a server error; a pass means no server error, the expected status when one is expected, and a single Location when one is expected; with no Location expected every other status that meets the status check passes |
| Checker.ResponseErrorExactly | bench/src/bench/checker.go:424-441 | a response passes exactly when it is no server error, has the expected status when one is expected, and a single Location matching the expected path when one is expected |
| Checker.ServerErrorsAlwaysFail | bench/src/bench/checker.go:424-427 | a status of 500 or more fails even when it is the expected status |
| Checker.UrlPathOfRelative | bench/src/bench/checker.go:437-438 | a relative Location is its path with the query or fragment after it dropped |
| Checker.UrlPathOfHttp | bench/src/bench/checker.go:437-438 | an http Location has the path of what follows its host |
| Checker.UrlPathOfHttps | bench/src/bench/checker.go:437-438 | an https Location has the path of what follows its host |
| Checker.HttpOrigin | bench/src/bench/checker.go:437-438 | after "http://" and a host, the rest of the URL is what follows the origin |
| Checker.HttpsOrigin | bench/src/bench/checker.go:437-438 | after "https://" and a host, the rest of the URL is what follows the origin |
| Checker.SlashIsRelative | bench/src/bench/checker.go:437-438 | a Location starting with "/" has no origin |
| Checker.SamePathAfterOrigin | bench/src/bench/checker.go:437-438 | two Locations with the same text after the origin have the same path |
| Checker.LocationPasses | bench/src/bench/checker.go:424-441 | a status below 500 that is the expected one, with a single Location whose path the check accepts, passes |
| Checker.CutAtAppend | bench/src/bench/checker.go:437-438 | cutting at a character passes over a prefix that does not hold it |
| Checker.RedirectToRootPasses | bench/src/bench/checker.go:424-441 | a 303 to "/", relative with a query or absolute, passes a check expecting "/", and a 303 without Location fails it |
| Counter.SumWhereRemove | bench/src/bench/counter/counter.go:49-59 | the sum over a key set is the same whichever key is taken out first |
| Counter.SumWhereSame | bench/src/bench/counter/counter.go:49-59 | the sum depends only on which keys are selected and their counts |
| Counter.SumWhereNone | bench/src/bench/counter/counter.go:49-59 | with no key selected the sum is 0 |
| Counter.SumWhereAfterAdd | bench/src/bench/counter/counter.go:24-28 | raising a key by d raises every sum that selects it by d and no other sum |
| Counter.SumPrefixAfterAdd | bench/src/bench/counter/counter.go:24-59 | raising a key by d raises the sum for every prefix it starts with by d and leaves every other prefix sum alone |
| Counter.SumPrefixNoMatch | bench/src/bench/counter/counter.go:49-59 | a prefix no key starts with sums to 0 |
| Counter.Counter.constructor | bench/src/bench/counter/counter.go:14-16 | the counter starts with no key |
| Counter.Counter.IncKey | bench/src/bench/counter/counter.go:18-22 | the key goes up by one, nothing else changes, and every prefix sum it falls under grows by one |
| Counter.Counter.AddKey | bench/src/bench/counter/counter.go:24-28 | the key goes up by d, no other key changes, and every prefix sum it falls under grows by d |
| Counter.Counter.GetKey | bench/src/bench/counter/counter.go:30-35 | the count of the key, 0 for a key never raised |
| Counter.Counter.SumPrefix | bench/src/bench/counter/counter.go:49-59 | the loop over the map yields the sum of the counts of exactly the keys starting with the prefix |
| Counter.Counter.GetMap | bench/src/bench/counter/counter.go:61-69 | the copy equals the counts |
| UrlCache.CacheStore.constructor | bench/src/bench/urlcache/cache.go:21-25 | a new cache holds no entry |
| UrlCache.CacheStore.Get | bench/src/bench/urlcache/cache.go:27-32 | an entry comes back exactly when the key is cached, and it is the cached one |
| UrlCache.CacheStore.Set | bench/src/bench/urlcache/cache.go:34-42 | a nil value removes the key, any other replaces its entry, and every other key keeps its entry |
| UrlCache.CacheStore.Del | bench/src/bench/urlcache/cache.go:44-48 | the key is gone and every other key keeps its entry |
| UrlCache.Request.constructor | bench/src/bench/urlcache/cache.go:77 | a request starts with its own headers |
| UrlCache.Request.AddHeader | bench/src/bench/urlcache/cache.go:77-84 | the header is added after the existing ones |
| UrlCache.ConditionalHeaders | bench/src/bench/urlcache/cache.go:77-84 | If-Modified-Since is added exactly when the entry has a Last-Modified value, If-None-Match exactly when it has an ETag, and nothing else |
| UrlCache.ApplyRequest | bench/src/bench/urlcache/cache.go:77-84 | the request keeps its headers and gains the entry's conditional headers |
| Base.Reverse | bench/src/bench/dataset.go:28-34 | the reverse has the same length and holds at position i what the input holds at position n-1-i |
| Base.ReverseReverse | bench/src/bench/dataset.go:28-34 | reversing twice gives the input back |
| Base.LastN | webapp/public/js/chat.js:17-20 | the last n elements, or all of them when there are fewer |
| Base.LastNLast | webapp/public/js/chat.js:17-20 | the last of the last n elements is the last element |

## Left out

- HTTP itself is not modelled: routing, HTML templates, redirects as headers, the JSON encoding, and status codes other than the ones the handlers choose.
- Sessions and cookies are reduced to the user id they carry: an integer in Go, Node and Python, an optional id in Ruby, and the `user_id` cookie string in PHP.
- Message dates are left out of the JSON rows, along with their formatting.
- Password hashing (SHA-1) is a function parameter, so nothing about the digest itself is proved.
- MD5 avatar names are handled the same way.
- Randomness is a sequence of draws or a permutation. The model does not say how a random source produces them.
- `Dataset.PrepareMessages` reads the channel draws and the text draws from two sequences, where the source takes them from one interleaved stream.
- Clocks and sleeps are dropped: the current time is a parameter, and the pauses of the benchmark driver are not modelled.
- Concurrency is not modelled. Every operation runs atomically, which is what the mutexes in the benchmark and MySQL's statement atomicity give.
- Integers are unbounded. Go's `int64` counters, ids and scores do not wrap in the model, since no realistic run comes near the limit.
- `ceil(cnt / 20)` is computed on floating point in Node, Python and PHP. It is modelled as the exact integer ceiling, which agrees for every count below 2^53.
- File I/O is left out:
  - Ruby writing avatar files to disk, and its `GET /icons` reading them back;
  - the benchmark reading its user list, avatar files and texts, which arrive as parameters.
- The PHP `get_channel_list_info` is not modelled separately: its loop is the one Python uses, modelled as `PythonApp.ChannelListInfo`.
- `NewURLCache` is not modelled. It parses Cache-Control and hashes the body. The cache entry is taken as given.
- `Counter.SumMatched` (a sum over the keys a regular expression matches) is not modelled: regular expressions are outside the model.
- `GetLastSlowPath` in the checker only returns the two fields that `Checker.ErrorLog.UpdateLastSlowPath` sets, so it has no member of its own.
- The checker's transport is left out: request construction, timeouts, cookies and the cache update after a 200.
- The benchmark's load functions and its HTML parsing are left out. The checks receive what the parser would extract: the pagination items, the message contents and the unread list.
- `Scenario.CheckHistoryPage` covers the page size and duplicate checks only. The per-message checks are left out: author, avatar and date against the register.
- `Structure.State.Init` returns `ok` false on a duplicate message of the data set, where the benchmark panics.
- `NodeApp.RandomString` requires a length of at least 1: for 0 the source's `while (--len)` loop never ends.
- `Text.Trim`: white space is the ASCII set (`Text.IsSpace`). Go's `TrimSpace`, JavaScript's `parseInt` and Python's `int()` also skip Unicode white space, which the model treats as an ordinary character.
- `Text.PyInt`: only ASCII digits are read, where Python's `int()` also reads other Unicode decimal digits.
- `PythonApp.PageParam`: only ASCII digits are accepted. Python's `isnumeric()` also accepts other Unicode digits ("٣" is page 3) and characters such as "²" that `int()` then rejects with a 500; the model refuses both.
- `PythonApp.GetHistory`: inherits the ASCII-only page reading of `PythonApp.PageParam`, so "٣" and "²" are 400 in the model, where the source serves page 3 and answers 500.
- `Numbers.PhpIsNumeric`: follows PHP 7. Trailing white space makes a string non-numeric, as before PHP 8, which accepts it. Hexadecimal strings are not numeric, as in PHP 7.
- `Numbers.PhpIntCast`: follows PHP 7.1 and later, which read the exponent; PHP 7.0 stops at the 'e', so "1e1" is 1 there and 10 in the model. The value is exact, where PHP goes through a double for a numeral with a fraction or an exponent. PHP's int64 range is not modelled: a numeral beyond it is not clamped as PHP does.
- `Text.RubyToI`: Ruby's `to_i` skips a `0d` prefix ("0d12" is 12); the model stops at the `d` and reads 0.
- `Text.JsParseInt`: the value is exact, where JavaScript numbers lose precision above 2^53, and the `Infinity` and exponent readings of very long digit strings are not modelled.
- `Numbers.MySqlEquals`: MySQL compares an integer column with a string as DOUBLE. The model compares the string's number exactly, which agrees up to 2^53 and can differ for longer numerals. Hexadecimal literals and MySQL's handling of very long exponents are not modelled.
- `Numbers.JsToNumber`: the value is exact, where a JavaScript number is a double. Unicode white space is not trimmed.
- `NodeApp.GetMessage`: Node's connection sets no sql_mode, so the model takes a non-strict session, in which a string with text after its number is stored by that number. A missing channel_id or last_message_id is bound as NULL and matches no row. The model takes every parameter as a string and does not represent an absent one.
- `NodeApp.PostMessage`: takes the same non-strict session as `NodeApp.GetMessage`, so a channel_id such as "1abc" is stored as 1.
- `PhpApp.GetHistory`: a missing channel_id cannot arise, because it is part of the route. A cookie or channel_id that reads as no integer is compared as MySQL compares it, and no strict-mode error arises, since the handler issues only SELECTs.
- `PhpApp.GetMessage`: MySQL's strict mode (set by index.php:40) is modelled as refusing, in an integer column, a string that holds no number or has text other than white space after it (`Numbers.MySqlStrictStores`). Its range rules for INT and BIGINT are not modelled. A missing channel_id is bound as NULL; the model takes channel_id as a string and does not represent an absent one, whose haveread INSERT depends on the column's NOT NULL constraint, which is not part of this model.
- `PhpApp.PostMessage`: the same strict-mode simplification applies to the cookie stored as the message's author. The channel id has already been through PHP's `(int)` cast, so MySQL always receives an integer for it.
- `Sample.PreTestChannels`: the user pool is taken to be non-empty. With no user, the add-channel check returns -1 without an error, and the source's loop then never ends; the model's answer type has no such outcome, so that spin is not modelled.
- `Store.Db.AddUser`: a name refused as a duplicate key leaves `nextUserId` unchanged, where InnoDB has already used up that AUTO_INCREMENT value; the model's ids are therefore consecutive where the database's can have gaps.
- `ChatClient.Client.Append`: a message whose user is null makes `append` throw a TypeError in the browser, leaving `loading` set; messages always carry a user in the model.
- `GoApp.TRange`: requires `b - a + 1 >= 0`; for a negative length Go's `make` panics, which the model does not represent.
- `Checker.UrlPath`: a simplification of Go's `url.Parse`. It does no percent-decoding, treats a "//host/path" reference as a path, knows only the http and https schemes, and never fails, where a malformed Location makes `url.Parse` return an error.

## Findings

| source | as written | input that shows it | evidently intended | confidence | as-written member | corrected member |
|---|---|---|---|---|---|---|
| webapp/ruby/app.rb:252-255 | the page must match `\A\d+\Z` and must not equal the string "0" | page "00" passes as page 0, giving a negative OFFSET (500) | only pages of 1 or more are accepted, anything else is 400 | high, not executed | RubyApp.DoubleZeroPage | RubyApp.IntendedPageParam |
| webapp/ruby/app.rb:397 | the display name is written when it is not nil, or else when it is not empty (`nil?` and `empty?` joined by a logical or) | display_name "" is written and blanks the name; a missing display_name raises (500) | the name is written only when present and non-empty | high, not executed | RubyApp.DisplayNameCounterexamples | RubyApp.IntendedDisplayNameUpdate |
| bench/src/bench/scenario.go:1711-1717 | tail mode counts down from maxPage while `0 <= i`, up to five pages | maxPage 2 asks for pages 2, 1 and 0, and every server answers 400 to page 0 | stop at page 1 | high, not executed | Scenario.TailPagesReachZero | Scenario.IntendedTailPagesExist |
| bench/src/cmd/sample.go:160 | `for r := range rand.Perm(8)` binds the index, not the value | any drawn permutation, e.g. 7 down to 0; the checks still run 0 to 7 | the checks run in the drawn random order | high, not executed | Sample.ValidationOrderIsFixed | Sample.IntendedValidationOrderCanStartAnywhere |
