# BookPlanetScanner core in Dafny

BookPlanetScanner (布可星球) is a small web app for a school reading programme. Students
scan a QR code to reach the BookPlanet login page. Visitors leave messages on a guestbook
that is kept in the browser's `localStorage`. A data manager counts visits, scans and
messages, and can import, reset and format them. A tiny Express server keeps the same
guestbook in a JSON file. A userscript fills the student code into the login form. A Python
batch job scrapes book ISBNs page by page and corrects a Google Sheet.

This project models the decision logic of those parts as pure Dafny functions and a few
methods, and proves properties of them:

- `wrappers.dfy`: `Option`.
- `text.dfy`: `String.prototype.trim` / `str.strip`, upper-casing, decimal numerals.
- `sorting.dfy`: a stable descending sort by an integer key. This stands for
  `Array.prototype.sort` with a `b - a` comparator.
- `entities.dfy`: avatars, profiles, guestbook posts, saved statistics.
- `storage.dfy`: `localStorage` as a map from keys to parsed values. A value of the wrong
  shape stands for text that `JSON.parse` rejects.
- `profiles.dfy`: `generateAvatar` and `generateUserProfile`. Random draws and the clock
  are parameters.
- `threads.dfy`: finding a message by id and appending a reply to it.
- `render.dfy`: what `loadMessages`/`renderMessage` show. Cards are structured; markup is
  not modelled. `LoadMessages` is the listing as intended. `LoadMessagesAsWritten` is what
  the append loop really leaves on the page: no card at all (see "## Findings"). The rest
  of the model uses the intended listing.
- `guestbook.dfy`: the controller, covering submit, reply, the reply-form toggle,
  show/hide/toggle and clear-all.
- `datamanager.dfy`: the statistics manager in `js/data-manager.js`.
- `server.dfy`: `POST /messages` and `GET /messages` of `app.js`.
- `autofill.dfy`: the login autofill userscript.
- `isbn.dfy`: `fetch_books_batch` and `update_sheet` of `isbn_batch.py`. The browser driver
  and the sheet are parameters.

## Model

| member | source | states |
|---|---|---|
| Text.TrimStartSpec | assets/js/feedback.js:93-94 | the leading cut is exactly the run of whitespace before the first other character |
| Text.TrimEndSpec | assets/js/feedback.js:93-94 | the trailing cut is exactly the run of whitespace after the last other character |
| Text.Trim | assets/js/feedback.js:93-94 | the trimmed text is no longer than the input, and when non-empty it neither starts nor ends with whitespace |
| Text.TrimSpec | assets/js/feedback.js:93-94 | the trimmed text is a contiguous slice of the input; everything cut off on either side is whitespace; the result neither starts nor ends with whitespace |
| Text.TrimEmptyIff | assets/js/feedback.js:96-99 | a trimmed field is empty exactly when the typed text is all whitespace, which is the condition the empty-content alert tests |
| Text.TrimIdempotent | isbn_batch.py:99-100 | stripping an already stripped cell changes nothing |
| Text.NatToDecimal | assets/js/feedback.js:69-72 | `toString` of a natural number: digits only, no leading zero, and the numeral denotes the number |
| Text.IntToDecimal | js/data-manager.js:204 | `toString` of an integer: the sign is `-` followed by the digits of the magnitude |
| Text.DecimalInjective | assets/js/feedback.js:72 | different numbers give different numerals |
| Text.ToUpper | assets/js/feedback.js:39 | a lower-case ASCII letter becomes the upper-case letter at the same alphabet position; every other character is kept |
| Text.PadStart | assets/js/feedback.js:72 | `padStart`: the result has the target width (or the text's own length when longer), ends with the text and is filled with the pad character before it |
| Sorting.SortDesc | assets/js/feedback.js:181-182 | the result is ordered by descending key and is a permutation (same multiset) of the input |
| Sorting.LargestFirst | assets/js/feedback.js:181-182 | an element whose key is strictly larger than every other key comes out first |
| LocalStorage.PostsOrEmpty | assets/js/feedback.js:116 | a missing messages key reads as the empty list; a well-formed one gives exactly the stored list; an unparseable one is a failure |
| LocalStorage.WritePosts | assets/js/feedback.js:118 | after writing, the messages key reads back as exactly the written list; the profile and every other key are kept |
| Profiles.ColorIndex | assets/js/feedback.js:40 | the colour index is (first character code + length) modulo the palette size, so it always indexes the palette |
| Profiles.GenerateAvatar | assets/js/feedback.js:35-43 | missing or empty name gives the grey `?` avatar, and only then; otherwise the avatar character is the upper-cased first character and the colour comes from the palette |
| Profiles.AvatarDependsOnFirstCharAndLength | assets/js/feedback.js:39-41 | two names with the same first character and length get the same avatar |
| Profiles.ValidSuffixText | assets/js/feedback.js:68-70 | a suffix is accepted iff it is in 10..99 and its decimal text contains no '4', which is the same as neither digit being 4 |
| Profiles.StoppingDraw | assets/js/feedback.js:68-70 | the do-while loop stops at the first draw whose number contains no 4, and every earlier draw contained a 4 |
| Profiles.PickSuffix | assets/js/feedback.js:67-70 | the chosen number is valid and is the first valid draw plus 10 |
| Profiles.Nickname | assets/js/feedback.js:72 | a nickname is the roster name followed by exactly two digits that denote the suffix and contain no 4 |
| Profiles.RosterNickname | assets/js/feedback.js:66-72 | every nickname built from a roster entry and a valid suffix is a roster nickname |
| Profiles.DrawNickname | assets/js/feedback.js:66-72 | the drawn nickname starts with the roster name picked by the first draw and ends in two digits without a 4 |
| Profiles.CreateProfile | assets/js/feedback.js:72-83 | the new profile carries the given nickname, the avatar derived from it and the clock reading; it is stored under the profile key and no other key changes |
| Profiles.ObtainProfile | assets/js/feedback.js:54-84 | a readable stored profile is returned with the store untouched; otherwise the profile is created and stored under the profile key alone |
| Profiles.GenerateUserProfile | assets/js/feedback.js:54-84 | a readable stored profile is returned with the store untouched; otherwise the new profile's nickname is the roster name of the first draw followed by a two-digit suffix without a 4, its avatar comes from that nickname, createdAt is the clock reading, and only the profile key is written |
| Profiles.ProfileIsStable | assets/js/feedback.js:55-63 | calling twice returns the same profile and leaves the same store, whatever the second call's draws are |
| Threads.FindById | assets/js/feedback.js:301 | `findIndex`: the result is the first position holding the id, or none when no position holds it |
| Threads.WithReply | assets/js/feedback.js:304-307 | a message's reply list grows by exactly the new reply at the end; every other field is kept |
| Threads.AppendReply | assets/js/feedback.js:300-308 | the list is unchanged iff no message has the id; otherwise only the first matching message changes, by gaining the reply |
| Threads.ReplyCountUpdate | assets/js/feedback.js:307 | replacing one message changes the total reply count by the difference of its reply counts |
| Threads.AppendReplyCount | assets/js/feedback.js:300-308 | appending a reply raises the total reply count by one when the id is present and by zero otherwise |
| Render.DisplayName | assets/js/feedback.js:207-239 | the name shown is never empty: a non-empty stored name is shown as it is, and an empty one as Anonymous |
| Render.RenderPost | assets/js/feedback.js:206-248 | a card keeps id, content and timestamp; an empty name shows as Anonymous; the avatar comes from the shown name and is never the `?` sentinel; a reply card has no form and no replies; a message card has the form and exactly one card per stored reply, each being that reply rendered as a reply card (its shown name, that name's avatar, its timestamp) |
| Render.NestedRepliesHidden | assets/js/feedback.js:210-214 | a reply's own nested replies never affect its card, so rendering stops at depth one |
| Render.RenderAll | assets/js/feedback.js:183-185 | each message is rendered as a top-level card, one card per message, in list order |
| Render.LoadMessages | assets/js/feedback.js:158-204 | the intended listing: an unparseable list shows the error notice and only then; an empty or missing list shows the placeholder and only then; otherwise the listing of `ListingSpec` |
| Render.LoadMessagesAsWritten | assets/js/feedback.js:180-186 | as written: the error notice and the placeholder as intended, but a non-empty list gives a listing with no card, because the loop appends each rendered message's leading white-space text node |
| Render.AsWrittenListingLosesCards | assets/js/feedback.js:183-186 | for every non-empty stored list, the intended listing has one card per message while the listing as written has none |
| Render.ListingSpec | assets/js/feedback.js:180-185 | in the intended listing every stored message appears once, as a thread card, sorted by id newest first |
| Render.ListingStartsWith | assets/js/feedback.js:181-182 | in the intended listing, the message with the largest id is shown first |
| Guestbook.Rerender | assets/js/feedback.js:158-204 | re-rendering rebuilds the listing from the store and closes every reply form; visibility and input fields are kept |
| Guestbook.ToggleReplyForm | assets/js/feedback.js:251-270 | toggling flips only the chosen form and closes every other, so at most one form is open; a missing form changes nothing |
| Guestbook.ToggleTwiceCloses | assets/js/feedback.js:254-268 | opening a closed form and toggling it again leaves no form open |
| Guestbook.Show | assets/js/feedback.js:376-390 | without the section nothing changes; otherwise the section becomes visible, the listing is reloaded, a profile is present afterwards, a readable stored profile is kept as it is, only the profile key may change, and an empty name field is filled with the profile nickname while a typed one is kept; the store afterwards is the one `ObtainProfile` leaves for the given nickname and clock reading, and the typed message is kept |
| Guestbook.Hide | assets/js/feedback.js:392-398 | hiding clears visibility and nothing else |
| Guestbook.Toggle | assets/js/feedback.js:400-406 | toggle inverts visibility; hiding never touches the store; a readable stored profile is kept |
| Guestbook.ToggleTwiceRestoresVisibility | assets/js/feedback.js:400-406 | toggling twice restores the original visibility |
| Guestbook.AppendMessage | assets/js/feedback.js:115-132 | the message is appended iff the stored list is readable; then the stored list is the old one plus the message, the fields are cleared and the listing is reloaded; otherwise the failure alert is the only effect; after a post visibility is kept and every reply form is closed |
| Guestbook.Author | assets/js/feedback.js:93-103 | the author is the trimmed typed name, or the profile nickname when that is empty |
| Guestbook.NewMessage | assets/js/feedback.js:106-113 | the new message carries the clock reading as id, the author (typed name or nickname), the avatar of that author, the trimmed content, the timestamp and an empty reply list |
| Guestbook.SubmitMessage | assets/js/feedback.js:87-141 | blank content raises the alert and changes nothing; a post happens iff content is non-blank and the stored list is readable, and then exactly one message (trimmed content, author, avatar, clock id, no replies) is appended and the fields are cleared; an unreadable list ends in the failure alert with the fields left as typed; keys other than profile and messages never change; a readable stored profile is kept; for non-blank content the stored profile afterwards is the one `ObtainProfile` gives for the drawn nickname; after a post visibility is kept and every reply form is closed |
| Guestbook.AppendedShownFirst | assets/js/feedback.js:181-182 | a message appended with an id above every stored id heads the intended listing |
| Guestbook.NewestMessageShownFirst | assets/js/feedback.js:106-132 | after a successful post with a fresh clock reading, the new message heads the intended listing |
| Guestbook.SubmitReply | assets/js/feedback.js:272-333 | no form: nothing happens; blank content: alert only; otherwise the reply is appended to the first message with the id iff the list is readable and holds that id, with trimmed fields and name fallback; on failure the list and UI are unchanged, an unreadable list gives the failure alert and an unknown id gives no notice at all; a readable stored profile is kept; with the form present and non-blank content the stored profile afterwards is the one `ObtainProfile` gives for the drawn nickname; after a posted reply visibility and the main form's two fields are kept |
| Guestbook.NewReply | assets/js/feedback.js:291-297 | the new reply carries the clock reading as id, the author (typed name or nickname), the avatar of that author, the trimmed content and the timestamp, and no reply list |
| Guestbook.AddReply | assets/js/feedback.js:300-327 | the reply is stored iff the list is readable and holds the id; then the first message with the id gains it at the end of its replies, the listing is reloaded with every reply form closed, and the profile is kept; otherwise nothing changes, with the failure alert for an unreadable list and no notice for an unknown id; after a posted reply visibility and the main form's two fields are kept |
| Guestbook.ReplyAddsOne | assets/js/feedback.js:300-308 | a successful reply raises the stored reply count by exactly one |
| Guestbook.NoReplyFormsAsWritten | assets/js/feedback.js:251-276 | over the listing as written no reply form is on the page, so toggling a form and submitting a reply change nothing, for every id |
| Guestbook.ClearAllMessages | assets/js/feedback.js:409-416 | without confirmation nothing changes; with it the messages key and the legacy replies key are removed, the listing shows the placeholder, and every other key and the visibility are kept; with confirmation the typed fields are kept and every reply form is closed |
| DataManager.SaveStats | js/data-manager.js:72-90 | saving writes the stats and the visit count and touches no other key |
| DataManager.LoadStats | js/data-manager.js:39-70 | unreadable storage resets to zero; otherwise each saved field, the visit count and the message-list length override the current values only when their key is present |
| DataManager.SaveLoadRoundTrip | js/data-manager.js:39-90 | loading after saving restores scans, successes, session and visits; the message total becomes the stored list length |
| DataManager.IncrementVisitCount | js/data-manager.js:119-122 | visits go up by exactly one, every other counter is kept, and the result is persisted |
| DataManager.IncrementScanCount | js/data-manager.js:130-133 | total scans go up by exactly one, every other counter is kept, and the result is persisted |
| DataManager.IncrementSuccessCount | js/data-manager.js:135-139 | successful scans and total scans each go up by exactly one, everything else is kept, and the result is persisted |
| DataManager.UpdateMessageCount | js/data-manager.js:142-154 | with a readable list the message total becomes its length and is saved; otherwise nothing changes |
| DataManager.ResetAllData | js/data-manager.js:286-320 | unless both confirmations are given nothing changes; otherwise the four keys are removed, then zero stats with one visit are written back |
| DataManager.ResetThenLoad | js/data-manager.js:286-304 | loading after a reset gives zero counters and one visit |
| DataManager.Merge | js/data-manager.js:252 | each imported stats field that is present replaces the current one; absent fields are kept |
| DataManager.ApplyImport | js/data-manager.js:252-264 | the merged stats are saved, and the guestbook and profile keys are written only when the file carries them |
| DataManager.ImportDataAsWritten | js/data-manager.js:237-283 | as wired: a parse error or a file missing its version or stats writes nothing; a valid file is declined without confirmation; a confirmed one writes the imported state and is reported as a failure exactly when the guestbook object is present, as imported otherwise |
| DataManager.ImportReportsFailureAfterWriting | js/data-manager.js:268-278 | a confirmed valid import with the guestbook present ends in the failure report, although the imported state, including any imported message list, was already saved |
| DataManager.ImportData | js/data-manager.js:237-283 | a parse error or a file missing its version or stats writes nothing; an import is reported as imported iff the file is valid and confirmed; anything else writes nothing; an imported state is persisted; an import merges the file's stats and writes its messages and profile when it carries them, and with the guestbook present it then recounts the messages |
| DataManager.ImportedCountMatchesMessages | js/data-manager.js:264-271 | after a corrected import that carries messages, the message total equals the imported list's length |
| DataManager.OnScanSuccessAsWired | js/data-manager.js:411-413 | with both listeners attached, one scanSuccess event adds two to successful scans and two to total scans |
| DataManager.OnScanSuccess | js/data-manager.js:135-139 | one scanSuccess event adds exactly one to successful scans and to total scans, keeps visits and messages, and persists the stats |
| DataManager.FormatNumber | js/data-manager.js:198-205 | below 1000 the text is the number's own digits (no leading zero, value equal to the input); 1000 and up use the K unit, a million and up the M unit |
| DataManager.ShortNumeral | js/data-manager.js:204 | a number below 1000 prints as one to three digits |
| MessageServer.Validate | app.js:42-52 | missing name or content is reported first, then a name over 50, then content over 500; the request passes iff both are present and within the limits |
| MessageServer.Stored | app.js:54-72 | a missing or unparseable file reads as the empty list; a parsed value that is not an array gives no list |
| MessageServer.PostMessage | app.js:38-84 | a rejected request leaves the file unchanged; an accepted one against a file holding a non-array throws in the read callback, so no response and no write; otherwise a write failure answers with a storage error and no change, and a success appends exactly one record with trimmed name and content to the stored list |
| MessageServer.GetMessages | app.js:19-35 | the answer is the stored records sorted newest first and is a permutation of them; a missing or unparseable file, or a value that is not an array, gives the empty list |
| MessageServer.PostedMessageListedFirst | app.js:19-84 | a record posted with a time later than every stored one is listed first |
| MessageServer.BlankNameStoredEmpty | app.js:42-66 | a whitespace-only name passes validation and is stored as the empty name |
| MessageServer.LengthCheckedBeforeTrim | app.js:42-52 | with an acceptable name, content longer than 500 characters is refused whatever it trims to, because lengths are checked before trimming |
| MessageServer.PaddedContentRefused | app.js:50-67 | `x` followed by 500 spaces is refused although it trims to one character |
| Autofill.ExtractCode | userscript/bookplanet-autofill.user.js:45-57 | a code is found only for a hash of length at least 2 whose text after `#` is exactly five ASCII digits, and it is that text |
| Autofill.ExtractCodeIff | userscript/bookplanet-autofill.user.js:45-57 | extraction succeeds iff the hash has the right shape, in both directions |
| Autofill.FirstCharacterIgnored | userscript/bookplanet-autofill.user.js:51 | the first character of the hash is dropped whatever it is |
| Autofill.LinkRoundTrip | userscript/bookplanet-autofill.user.js:44-57 | a link built as `#` plus a five-digit code yields that code |
| Autofill.Run | userscript/bookplanet-autofill.user.js:97-144 | with no code the page is unchanged; otherwise the student radio is selected, the code is filled in, the hash is cleared and the form is submitted when a button exists |
| Autofill.RunIsIdempotent | userscript/bookplanet-autofill.user.js:127-132 | because the hash is cleared, running again changes nothing |
| Autofill.FilledValueIsCode | userscript/bookplanet-autofill.user.js:112-122 | the filled value equals the code taken from the hash |
| IsbnBatch.RowBook | isbn_batch.py:97-104 | a row yields a book iff it has at least four cells whose stripped first and fourth cells are non-empty and free of `{{`, and the book is those two stripped cells |
| IsbnBatch.PageBooks | isbn_batch.py:96-104 | a page yields at most one book per row |
| IsbnBatch.PageBooksFromRows | isbn_batch.py:96-104 | every book of a page is the book of one of its rows |
| IsbnBatch.PageBooksClean | isbn_batch.py:96-104 | every book a page yields has a non-empty name and ISBN, neither containing `{{` |
| IsbnBatch.PageBooksAppend | isbn_batch.py:96-104 | filtering two row lists one after the other equals filtering their concatenation |
| IsbnBatch.SingleRow | isbn_batch.py:97-104 | a single row yields its book exactly when it passes the filter |
| IsbnBatch.AttemptsUsed | isbn_batch.py:78-122 | a page uses one to three attempts; fewer than three means the last one loaded |
| IsbnBatch.FetchPage | isbn_batch.py:78-122 | the retry loop returns the first loaded attempt's rows and the number of attempts used; it returns nothing iff all three attempts failed |
| IsbnBatch.VisitPage | isbn_batch.py:78-122 | one pass of the page loop keeps the loop state: the books are the progress followed by every accepted book of the pages so far, the saves are exactly those of the pages divisible by five, and each page used one to three attempts |
| IsbnBatch.FetchPages | isbn_batch.py:74-122 | visiting pages in order appends each page's accepted books to the progress list and records the save points and attempt counts |
| IsbnBatch.FetchBooksBatch | isbn_batch.py:64-128 | without a driver the progress is returned unchanged; otherwise the result is the progress followed by every page's accepted books in page order, saves happen at pages divisible by 5, and each page uses one to three attempts |
| IsbnBatch.CollectedBooksAreClean | isbn_batch.py:98-104 | every collected book has a non-empty name and ISBN without the template marker |
| IsbnBatch.FailedPageSkipped | isbn_batch.py:115-122 | a page whose three attempts all fail contributes no books |
| IsbnBatch.FirstByName | isbn_batch.py:141 | `next(...)`: the match is the book at the first position holding the record's title, and there is none only when no book has that title |
| IsbnBatch.Correction | isbn_batch.py:139-142 | a record is corrected only to the ISBN of the first book with its title, and only when that ISBN differs from the stripped stored one; when there is no correction, no first match carries a different ISBN |
| IsbnBatch.CorrectionRows | isbn_batch.py:138-146 | the writes for the first n records target the ISBN column, rows within 2..n+1, in strictly increasing order, so no row is written twice |
| IsbnBatch.CorrectionsCover | isbn_batch.py:138-146 | row i+2 ends up holding exactly record i's correction: written with it when there is one, never written otherwise |
| IsbnBatch.AllCorrectionsCovered | isbn_batch.py:138-146 | row i+2 is written iff record i has a matching book whose ISBN differs from the stripped stored ISBN, and then with that ISBN |
| IsbnBatch.UpdateSheet | isbn_batch.py:130-148 | the loop issues exactly the corrections in record order and counts them |
| IsbnBatch.UnchangedRecordsUntouched | isbn_batch.py:142 | a record whose stored ISBN already equals the match's is never written |

## Left out

- Strings are sequences of Dafny characters, not UTF-16 code units. `toUpperCase` is modelled for ASCII letters only.
- Text.Trim: the whitespace set is space, tab, line feed, carriage return, U+000B, U+000C, U+00A0, U+2028, U+2029 and U+3000. This is a strict subset of what both JavaScript `trim` and Python `strip` remove. Both also remove U+1680, U+2000 to U+200A, U+202F and U+205F. `trim` also removes U+FEFF, and `strip` also removes U+001C to U+001F and U+0085. Text made of those characters is trimmed less in the model.
- The DOM is reduced to the values the logic reads: the guestbook section's presence, the reply form's presence, and the field contents. Markup, toasts, alerts' wording and CSS are not modelled.
- Guestbook.SubmitMessage: the name and message inputs are assumed present. The early return when either is missing (assets/js/feedback.js:88-91) is not modelled; it changes nothing.
- Render.LoadMessages: the messages container is assumed present. The early return when it is missing (assets/js/feedback.js:159-160) is not modelled; it shows nothing.
- `requestAnimationFrame` rendering is treated as synchronous.
- Render.ListingStartsWith: stated of the intended listing (`Render.LoadMessages`). As written no card reaches the page (`Render.LoadMessagesAsWritten`, see "## Findings").
- Guestbook.AppendedShownFirst: stated of the intended listing; as written the new message is not shown at all (see "## Findings").
- Guestbook.NewestMessageShownFirst: stated of the intended listing; as written the new message is not shown at all (see "## Findings").
- The best-effort mirror of the guestbook to a file (`saveToFile`) and the fire-and-forget statistics uploads are left out: their failures are swallowed and never change the state.
- `exportData`, cloud backup, `updateStatsDisplay` and the scanner/camera code are outside this model.
- `Math.random`, `Date.now`, `toLocaleString` and `confirm` are parameters. The message id and the profile's `createdAt` share one clock reading.
- Guestbook.SubmitMessage: the controller receives the nickname that `generateUserProfile` would draw (`Profiles.DrawNickname`) as the parameter `nick`; the same holds for `SubmitReply`, `Show` and `Toggle`.
- Guestbook.SubmitMessage: each submit is atomic. In the source, `await saveToFile` (assets/js/feedback.js:122) runs between storing the list and clearing the fields. A second click in that window posts the same text again. `SubmitReply` has the same window (assets/js/feedback.js:312).
- Profiles.GenerateUserProfile: the do-while loop is modelled over a finite sequence of draws that contains an accepted draw (`WellFormedDraws`). Termination of the real random loop is an assumption about the random source.
- Profiles.GenerateUserProfile: a stored profile value that parses but is not a profile object is replaced by a new profile. The source returns any parsed value. For `"x"`, `{}` or `42` the nickname is undefined, so a post falls back to the typed name or Anonymous. For `null` the nickname lookup throws, and submit ends in the failure alert. The same holds for Profiles.ObtainProfile.
- Profiles.ObtainProfile: see the line above; only a value of the profile shape counts as a stored profile.
- LocalStorage.PostsOrEmpty: JSON text that parses but has the wrong shape is treated like text that does not parse.
- DataManager.LoadStats: a stats key holding a parseable non-object is treated as a load failure.
- DataManager.FormatNumber: the K and M branches state only the unit. The one-decimal floating-point text before it is not modelled.
- DataManager.ImportData: the file reader, `JSON.parse` and the `confirm` dialog are inputs. The outcome of a failing `JSON.parse` is the `ParseError` value.
- MessageServer.PostMessage: each request is modelled on its own. The TypeError thrown for a non-array file is uncaught and app.js installs no `uncaughtException` handler, so the Node process exits and every later request also goes unanswered; the model records only the `Crashed` result of that request.
- MessageServer.PostMessage: array elements are taken to be records, and `name` and `content` to be strings when present. A non-string field that passes the checks throws at `trim` (app.js:66), and an array of other values is appended to as it is. Neither is modelled.
- MessageServer.PostMessage: times are integers standing for the ISO timestamps, compared as numbers. A failed write is modelled as leaving the file unchanged.
- MessageServer.GetMessages: the order among records with equal times is not stated.
- Autofill.Run: the ASP.NET postback, the timers and the retry while the code input is missing are collapsed into one step; the retry is assumed to find the input eventually.
- IsbnBatch.FetchBooksBatch: rows appended by an attempt that then fails are not modelled, and neither are errors while saving progress. The page URL, waits and sleeps are left out.
- IsbnBatch.UpdateSheet: gspread's conversion of numeric-looking ISBN or title cells is not modelled; cells are strings.

## Findings

| source | as written | input that shows it | evidently intended | confidence | as-written member | corrected member |
|---|---|---|---|---|---|---|
| js/data-manager.js:268-271 | `importData` calls `window.feedbackSystem.updateMessageCount()`, but js/app.js:112-114 assigns a FeedbackSystem there, and that object has no such method | a valid, confirmed import while the guestbook object is present: everything is written, then the TypeError lands in the catch and the failure notice is shown | recount the messages with the data manager's own `updateMessageCount` and report success | not executed | DataManager.ImportDataAsWritten | DataManager.ImportData |
| js/data-manager.js:411-413 | the data manager listens for `scanSuccess` and calls `incrementSuccessCount`; js/app.js:127-131 listens for the same event and calls it again | one `scanSuccess` event: successful scans and total scans each go up by two | one increment per successful scan | not executed | DataManager.OnScanSuccessAsWired | DataManager.OnScanSuccess |
| assets/js/feedback.js:186 | `wrapper.appendChild(messageDiv.firstChild)`, where the HTML from `renderMessage` starts with a line break and indentation (:234-235), so `firstChild` is a white-space text node and not the message element | any stored list with at least one message: the wrapper receives only white-space text nodes, no card, no reply button and no reply form | append the message element (`firstElementChild`), one card per message, newest first | high; not executed | Render.LoadMessagesAsWritten | Render.LoadMessages |
