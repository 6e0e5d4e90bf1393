# TravelHub page logic in Dafny

TravelHub is a community posting board: a React front end over a hosted
table/storage backend. Almost everything it does is markup and single remote
calls; what is left is the client-side decision and string logic of three
pages, which this project models and proves properties of:

- **Post detail page** (`PostPage.jsx`): rewriting a video link to YouTube's
  embed form (`getEmbedUrl`), deciding ownership, the edit/delete buttons with
  their secret-key prompt, upvoting, and adding comments.
- **Create-post page** (`CreatePost.jsx`): the per-browser user id, the
  validation order and the exact record inserted, and the storage name of an
  uploaded image.
- **Edit-post page** (`EditPost.jsx`): filling the form from the stored post,
  the unverified/verified gate in front of the update, and the three-column
  update payload.

Each page's state is an immutable record, and each event handler is a pure
function from the state, plus whatever the backend answered (passed in as
parameters: success or error, row found or not, the inserted row's id), to a
`Step`: the next state and the effects produced in order (requests sent,
alerts, confirmation prompts, navigation). JavaScript's string and number
operations the pages use (`trim`, `includes`, `split`, `arr[k]`, `pop`,
`parseInt`, printing a Number) are modelled over `seq<char>` and unbounded
integers.

Files: `wrappers.dfy` (Option, Outcome, Result), `js_strings.dfy`,
`js_numbers.dfy`, `remote.dfy` (rows, payloads, effects), `identity.dfy`,
`video_embed.dfy`, `post_page.dfy`, `create_post.dfy`, `edit_post.dfy`.

`Remote.StoredRow` is the one assumption made about the backend: an inserted
record is stored column for column as sent, with the id and creation time the
table assigns.

Three behaviours of the code are easy to misread:

- A YouTube URL (one containing "youtube.com" or "youtu.be") with neither
  "v=" nor "youtu.be/" is not passed through unchanged: `split(...)[1]` is
  `undefined`, no exception is raised, and the template literal produces
  `https://www.youtube.com/embed/undefined`. `VideoEmbed.EmbedUrl` states
  this case explicitly. The `catch` branch of `getEmbedUrl` cannot be reached
  for a string URL, because `split("v=")[1]` always exists once "v=" is present.
- A non-empty repost field that does not parse still produces a repost
  value: the record passed to `insert` holds the `NaN` from `parseInt`
  (`CreatePost.RepostOf`). JSON carries `NaN` as `null`, so the stored row
  has no repost reference (`Remote.StoredRow`).
- The edit page fills its fields from the stored post before verification;
  only the rendering hides them. Typing events are therefore accepted in either
  state in `EditPost.Handle`, and the gate sits where the code puts it, in
  `handleSubmit`.

## Model

| member | source | states |
|---|---|---|
| JsStrings.TrimIsEmptyIffBlank | travelhub/src/pages/PostPage.jsx:132 | `!s.trim()` holds exactly when every character of `s` is ECMAScript white space or a line terminator |
| JsStrings.TrimStart | travelhub/src/pages/CreatePost.jsx:72 | the result is a suffix of the input, everything dropped is white space, and it does not start with white space |
| JsStrings.TrimEnd | travelhub/src/pages/CreatePost.jsx:76 | the result is a prefix of the input, everything dropped is white space, and it does not end with white space |
| JsStrings.Split | travelhub/src/pages/PostPage.jsx:47-48 | `split(sep)` yields at least one piece, the pieces joined with `sep` give the input back, and no piece contains `sep` |
| JsStrings.SplitFirstTwo | travelhub/src/pages/PostPage.jsx:47 | when `sep` occurs, element 1 exists and is the text between the first `sep` and the next one (or the end); element 0 is the text before the first `sep` |
| JsStrings.SplitPieces | travelhub/src/pages/CreatePost.jsx:22 | `split(sep)` has more than one piece exactly when `sep` occurs, and is `[s]` otherwise |
| JsStrings.IndexOf | travelhub/src/pages/PostPage.jsx:45-46 | the result is an occurrence with none before it, and absence means no occurrence anywhere |
| JsStrings.IncludesIffOccurs | travelhub/src/pages/PostPage.jsx:45-46 | `includes(t)` holds exactly when `t` occurs at some index |
| JsNumbers.DigitPrefixLength | travelhub/src/pages/CreatePost.jsx:94 | the digit run `parseInt` reads is all digits and is followed by a non-digit or the end |
| JsNumbers.Decimal | travelhub/src/pages/CreatePost.jsx:23 | printing a non-negative integer gives a non-empty digit string without a leading zero whose value is the integer |
| JsNumbers.ParseLeadingDigits | travelhub/src/pages/CreatePost.jsx:94 | `parseInt` reads digits up to the first non-digit (`"12.5"` gives 12), except that a lone `0` before `x` switches to hexadecimal |
| JsNumbers.ParseIntText | travelhub/src/pages/CreatePost.jsx:94 | parsing the printed form of any integer gives that integer back |
| Identity.FreshId | travelhub/src/pages/CreatePost.jsx:8 | a generated id is never empty; it is the random UUID when the browser has one, else "user-" followed by the time, which parses back to that time |
| Identity.GetOrCreateUserId | travelhub/src/pages/CreatePost.jsx:5-12 | a stored non-empty id is returned and storage left alone; a null or empty slot gets a fresh id, which is stored and returned |
| Identity.GetOrCreateIdempotent | travelhub/src/pages/PostPage.jsx:29-37 | a second call returns the first call's id and storage, whatever UUID or clock it would have used |
| VideoEmbed.VideoIdMeaning | travelhub/src/pages/PostPage.jsx:46-48 | the id is the text after the first "v=" cut at the next "v=" and then at the first "&"; without "v=", the text after the first "youtu.be/" cut at any later one; with neither, `undefined` |
| VideoEmbed.EmbedUrl | travelhub/src/pages/PostPage.jsx:40-57 | null or empty gives null; a non-YouTube URL is returned unchanged; a YouTube URL gives the embed prefix plus the id, or plus "undefined" when there is no id |
| VideoEmbed.ShortLinkEmbeds | travelhub/src/pages/PostPage.jsx:45-49 | `p + "youtu.be/" + id` embeds exactly `id`, when `p` has no "y" and no "v=" and `id` includes neither "v=" nor "youtu.be/" (so `https://youtu.be/abc123` gives `https://www.youtube.com/embed/abc123`) |
| VideoEmbed.WatchIdCut | travelhub/src/pages/PostPage.jsx:47 | the text `id + "&" + rest` after "v=" is cut back to `id`, when `id` has no "&" and does not include "v=" |
| VideoEmbed.WatchLinkEmbeds | travelhub/src/pages/PostPage.jsx:45-49 | `p + "v=" + id + "&" + rest` embeds exactly `id`, when `p` includes "youtube.com", neither `p` nor `id` includes "v=", and `id` has no "&" |
| VideoEmbed.OtherHostExample | travelhub/src/pages/PostPage.jsx:45-52 | one example, `https://vimeo.com/123`, is passed through unchanged; the general rule is the second ensures of `VideoEmbed.EmbedUrl` |
| PostPage.LoadPost | travelhub/src/pages/PostPage.jsx:59-82 | a failed fetch navigates to the feed; a loaded post is shown, ownership is strict equality of its author with the local id, and the reposted post is fetched exactly when `repost_of` is truthy |
| PostPage.LoadRepost | travelhub/src/pages/PostPage.jsx:84-96 | a failed fetch of the reposted post changes nothing; a successful one sets only the reposted post |
| PostPage.RepostLeavesPostAlone | travelhub/src/pages/PostPage.jsx:59-96 | after a post is loaded, fetching the post it reposts, whether it succeeds or fails, leaves that post, its ownership and the comments as they were |
| PostPage.AuthorOwnsPost | travelhub/src/pages/PostPage.jsx:29-73 | the browser that created a post, reading its id again from the storage the create page left, sees the stored row as its own |
| PostPage.LoadComments | travelhub/src/pages/PostPage.jsx:98-110 | the comments become the returned rows (none for null data); an error leaves them as they were |
| PostPage.LoadedCommentsStayFirst | travelhub/src/pages/PostPage.jsx:98-151 | comments added after a successful load follow the loaded rows, which stay first and in the backend's order |
| PostPage.Upvote | travelhub/src/pages/PostPage.jsx:112-127 | with no post nothing happens; otherwise one write of (upvotes or 0) + 1 is sent, and only a successful write changes the local post, in its upvotes only |
| PostPage.UpvoteTimesAdds | travelhub/src/pages/PostPage.jsx:115-125 | after k successful upvotes the count is the starting count (or 0) plus k and every other column is unchanged |
| PostPage.AddComment | travelhub/src/pages/PostPage.jsx:129-151 | a blank comment sends nothing; otherwise the untrimmed text is sent; success appends the returned row after the existing ones and clears the input; failure changes nothing |
| PostPage.CommentSeriesAppends | travelhub/src/pages/PostPage.jsx:129-151 | after any number of successful non-blank comments, the list is the starting list followed by the returned rows in order, one insert per comment was sent with its text, the post is unchanged and the input is empty |
| PostPage.ConfirmDelete | travelhub/src/pages/PostPage.jsx:175-185 | the user is asked first; the delete is sent exactly when confirmed, and the feed is shown exactly when it also succeeded |
| PostPage.EditClick | travelhub/src/pages/PostPage.jsx:153-162 | the owner goes straight to the edit route with no prompt; a non-owner gets the prompt set for "edit" and no navigation |
| PostPage.DeleteClick | travelhub/src/pages/PostPage.jsx:164-173 | the owner goes straight to the delete confirmation with no prompt; a non-owner gets the prompt set for "delete" and no delete |
| PostPage.SecretKeySubmit | travelhub/src/pages/PostPage.jsx:187-221 | the key is looked up; a wrong key alerts and leaves the prompt and everything else as it was; a right key closes the prompt and runs exactly the pending action; the key field is cleared either way |
| PostPage.KeyPathMatchesOwnerPath | travelhub/src/pages/PostPage.jsx:153-216 | a non-owner who clicks, types the right key and submits gets the owner's effects for that button, after the lookup |
| PostPage.FailedAttemptsGrantNothing | travelhub/src/pages/PostPage.jsx:196-201 | any number of rejected keys leave the prompt, the pending action and the post unchanged and never navigate to the edit route or delete |
| CreatePost.RepostOf | travelhub/src/pages/CreatePost.jsx:94 | the repost reference is null exactly when the field is empty |
| CreatePost.RepostOfNumeral | travelhub/src/pages/CreatePost.jsx:94 | a field holding an integer's numeral stores that integer |
| CreatePost.RepostOfDigits | travelhub/src/pages/CreatePost.jsx:94 | a field of decimal digits stores their value |
| CreatePost.Submit | travelhub/src/pages/CreatePost.jsx:70-106 | a blank title is refused first and a blank key second, both with no insert; otherwise exactly one insert is sent, then the new post's page is shown or the error alerted |
| CreatePost.SubmitInsertsAsTyped | travelhub/src/pages/CreatePost.jsx:82-96 | every insert comes from a valid form and stores title, content and key untrimmed, zero upvotes, the local user id, the chosen category, and a null repost exactly for an empty field |
| CreatePost.DefaultCategoryIsQuestion | travelhub/src/pages/CreatePost.jsx:58-95 | a fresh form with only title and key filled in inserts a "Question" post with empty optional fields and no repost |
| CreatePost.Extension | travelhub/src/pages/CreatePost.jsx:22 | the extension contains no ".", ends the file name, follows the last "." when there is one, and is the whole name when there is none |
| CreatePost.UploadName | travelhub/src/pages/CreatePost.jsx:22-24 | the stored name is the time, ".", and the extension, so it parses back to the time |
| CreatePost.ChooseFile | travelhub/src/pages/CreatePost.jsx:17-42 | no file does nothing; otherwise the upload is sent under that name, and only a successful upload replaces the image URL |
| EditPost.LoadForm | travelhub/src/pages/EditPost.jsx:20-37 | a failed fetch goes to the feed; otherwise each field shows the stored value, a null one as "" |
| EditPost.VerifyKey | travelhub/src/pages/EditPost.jsx:39-59 | a blank key alerts without a lookup; a found row verifies the page; an error or no row leaves it as it was; nothing unverifies it and nothing is updated |
| EditPost.Submit | travelhub/src/pages/EditPost.jsx:61-92 | unverified, it runs the key check and sends no update; verified, a blank title is refused, else one update of exactly title, content and image URL is sent, then the post is shown or the error alerted |
| EditPost.ApplyEdit | travelhub/src/pages/EditPost.jsx:76-83 | the update writes title, content and image URL and leaves every other column as it was |
| EditPost.EditKeepsOtherColumns | travelhub/src/pages/EditPost.jsx:76-83 | an edit never changes the secret key, category, video, repost reference, upvotes, author, id or creation time |
| EditPost.HandleUpdates | travelhub/src/pages/EditPost.jsx:64-83 | a single event sends an update only from a verified page with a non-blank title, for the route's post |
| EditPost.HandleKeepsVerified | travelhub/src/pages/EditPost.jsx:39-92 | no single event of the page turns a verified page back to unverified |
| EditPost.VerifiedStaysVerified | travelhub/src/pages/EditPost.jsx:54-58 | once verified, the page stays verified through any sequence of events |
| EditPost.UpdatesOnlyWhenVerified | travelhub/src/pages/EditPost.jsx:61-83 | in any session, every update sent targets the route's post with a non-blank title, and the session ends verified |
| EditPost.UnverifiedSessionNeverUpdates | travelhub/src/pages/EditPost.jsx:64-67 | a session that ends unverified sent no update at all |
| EditPost.UntouchedSaveRoundTrip | travelhub/src/pages/EditPost.jsx:20-92 | loading a row, verifying its key and saving without edits sends the stored title, content and image URL (a null as ""), and a row without nulls there is written back unchanged; a null or blank title is refused |

## Left out

- The hosted backend (select, insert, update, delete, storage upload, public
  URL) is not modelled; each call appears as an effect, and its answer is a
  parameter of the handler that awaits it.
- The feed page (`Home.jsx`): its search, category filter and sort are built
  with the backend's query builder and run on the server.
- Theme persistence, the navigation bar, the post card and routing
  (`ThemeContext.jsx`, `NavBar.jsx`, `PostCard.jsx`, `App.jsx`): browser
  storage, DOM attributes and rendering. The id logic repeated in `App.jsx`
  is the one `Identity.GetOrCreateUserId` models.
- Rendering: the relative creation time, the shortened author label, and the
  markup of each page.
- Randomness and time: `crypto.randomUUID` and `Date.now` are parameters.
- `window.confirm`, `alert` and navigation are recorded as effects; the
  answer to `confirm` is a parameter.
- Asynchrony: each handler runs to completion as one step. Interleavings
  (the non-atomic read-modify-write of upvotes across clients, the edit page
  not awaiting `verifySecretKey`, handlers using a state captured earlier) are
  not modelled.
- The `loading`/`uploading` flags are modelled only by their value after a
  handler finishes; the value shown while a request is pending is not.
- `PostPage.AddComment`: an insert that succeeds but returns no row (so that
  `data[0]` is `undefined`) is not modelled; a successful insert always carries
  the row.
- `CreatePost.Submit`: an insert that succeeds but returns no row (so that
  reading `data[0].id` throws) is not modelled.
- JavaScript strings are UTF-16 code units; the model uses Unicode scalar
  values, which differ only outside the Basic Multilingual Plane.
- `JsNumbers.ParseInt` and `JsNumbers.Decimal` use exact integers: the
  rounding of `parseInt` results above 2^53 and the exponent notation Numbers
  print with from 10^21 are not modelled.
- `split` with an empty separator is not modelled; the pages split only at
  non-empty literals.
- `console.error` logging of failed requests is left out; it has no effect
  on the page state.
- The browser's built-in form validation (`required`, `type="url"`,
  `type="number"`) is not modelled: the handlers are modelled as if called
  with any field values. For example, the browser stops an empty title before
  `handleSubmit` runs, while the model shows the handler's own alert.
- The category select and the other typing events of the create form are not
  modelled as events; the form record holds whatever was chosen or typed.
