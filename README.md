# SlnkoApp DPR client — a Dafny model

This project models the part of the SlnkoApp React Native client that decides
what a site engineer sees and sends about Daily Progress Reports (DPRs), and
proves properties of that model.

**DPR list and project screens**
- The status normaliser maps backend status text onto five canonical states.
- Progress is clamped into 0..1.
- The recent-task list is built from the DPR list and sorted newest first.
- Relative times are formatted as "5m ago", "3 days ago" and similar.

**Bucket screens**
- The "My Task" summary cards are computed from the status counts.
- The bucket list screen unwraps the answer, filters by status, rounds and clamps the percentage, and picks the status chip colours.

**Task detail screen**
- Posting a comment appends an event to the comment feed.
- A status row can be selected.

**Visual helpers**
- `hexToRgba`, including JavaScript's `parseInt(…, 16)` and its 32-bit shifts.
- The gradient of the dashboard cards.
- The profile placeholder's initials.

**Side drawer**
- The signed-in user is looked up in the user list.
- The name, e-mail, initial and avatar fall back along the chains the code uses.

**Profile editor**
- Hydration from the stored user.
- The photo picker's file name.
- The submit guard.
- The multipart payload.
- The merge of the server's answer over the stored record.

**Sign-in flow**
- Validation, the login call, storing the token, the user lookup, storing the user record, and the mapping of failures to error messages.

**API slices**
- The base URL.
- The `getAllDpr` query string, built with `URLSearchParams.set` and serialised as `application/x-www-form-urlencoded`.
- The update, login and edit request descriptors.
- Their cache tags.

## How the model is organised

There is one module per core source file:

| module | source file |
|---|---|
| `Project` | `Project.tsx` |
| `RecentTask` | `RecentTask.tsx` |
| `CardsData` | `CardsData.tsx` |
| `MyTask` | `MyTask.tsx` |
| `Company` | `Company.tsx` |
| `Card` | `Card.tsx` |
| `ProfilePlaceholder` | `profilePlaceholder.tsx` |
| `Sidebar` | `Sidebar.tsx` |
| `EditProfile` | `EditProfile.tsx` |
| `MainSignIn` | `MainSignIn.tsx` |
| `DprSlice` | `dprSlice.ts` |
| `LoginSlice` | `loginSlice.ts` |

Shared modules model the JavaScript and web-platform behaviour the code relies on:
- `JsText`: `trim` with the full ECMAScript white-space set, ASCII case mapping, `split`/`join`, decimal and hexadecimal digits.
- `Json`: scalar JSON values, truthiness, `String(v)`, `??`, and `JSON.stringify` of a spread-and-override object.
- `Order`: the stable newest-first sort.
- `FormUrlEncoding`: the serializer of section 5.2 of the WHATWG URL Standard, and a parser that reads the result back.
- `Calendar`: month and weekday names, and `Date.prototype.toDateString`.
- `Http`: verbs, cache tags and the shared base URL.
- `Arith`: floor-division facts.
- `Optional`: the `Option` type.

The code appears in three forms, following the source:
- Pure expressions become functions.
- Code that changes state step by step becomes classes with `modifies` clauses:
  - the task detail screen (`Company.TaskActivity`);
  - the profile form (`EditProfile.ProfileForm`);
  - the sign-in screen (`MainSignIn.SignInScreen`);
  - `URLSearchParams` (`DprSlice.SearchParams`).
- Each method is proved against a pure specification function.

External results are parameters:
- network answers;
- stored values;
- the image picker's answer;
- the clock;
- the local calendar fields of a parsed date.

Parsed timestamps are integers in milliseconds.

## Notes on the code

The client code contains no progress aggregator, no quantity cap policy, no builder of an activity feed from status history, no status codec for submissions and no status-change submitter; progress, feeds and statuses come only from the pieces modelled here.

Two consequences of the status normaliser as written:
- **Separators.** Status matching is not separator-insensitive. The code recognises only the spellings it lists. For example, `work-stopped` falls through to "in progress" (`Project.SpellingNearMiss`).
- **Blank status.** A status of blanks only is truthy, so it is not defaulted to idle. It trims to "" and falls to "in progress" (`Project.NormalizeWhitespaceOnly`).

## Model

| member | source | states |
|---|---|---|
| Project.Normalize | app/Screens/Project/Project.tsx:462-485 | null, undefined and "" give idle. For other text, each status results exactly when the lower-cased, trimmed text is one of that status's spellings. Anything else is in progress. |
| Project.NormalizeKey | app/Screens/Project/Project.tsx:455-485 | every canonical key normalises back to its own status |
| Project.NormalizeIdempotent | app/Screens/Project/Project.tsx:462-485 | normalising the key of a normalised status gives that status again |
| Project.NormalizeIgnoresCase | app/Screens/Project/Project.tsx:464 | lower-casing the input first does not change the result |
| Project.NormalizeIgnoresPadding | app/Screens/Project/Project.tsx:464 | trimming the input first does not change the result, for text that is not blank |
| Project.NormalizeWhitespaceOnly | app/Screens/Project/Project.tsx:463-483 | text of blanks only passes the falsy check and ends in the in-progress default |
| Project.NormalizeSpellings | app/Screens/Project/Project.tsx:466-483 | the listed variant spellings map to their statuses in any letter case. Hyphenated "work-stopped" is not listed and falls to in progress. |
| Project.SpellingNearMiss | app/Screens/Project/Project.tsx:472-483 | "work-stopped" normalises to in progress, not to work stopped |
| Project.NormalizePadded | app/Screens/Project/Project.tsx:464 | "  IDLE " normalises to idle |
| Project.Clamp01 | app/Screens/Project/Project.tsx:192 | the result lies in [0, 1]. A value inside [0, 1] is unchanged; values outside are clamped to the nearest end. |
| Project.Progress | app/Screens/Project/Project.tsx:189-196 | progress lies in [0, 1]. A numeric `percent_complete` wins. Otherwise, a "percentage" work completion supplies the value, with a missing value read as 0. Otherwise progress is 0. |
| Project.CardTitle | app/Screens/Project/Project.tsx:198 | a non-empty activity name wins. An activity object without one is shown as the object itself. An id is shown as itself, or "-" when empty, and a missing activity gives "-". A text title is never empty. |
| Project.RecentTitle | app/Screens/Project/Project.tsx:496 | as the card title, but a missing activity gives "Activity" and an empty id is kept |
| Project.CardOf | app/Screens/Project/Project.tsx:199-210 | a card carries the title, the project code (default "") and the bounded progress |
| Project.ListOf | app/Screens/Project/Project.tsx:187 | the response's `data`, or the empty list |
| Project.Cards | app/Screens/Project/Project.tsx:186-212 | one card per DPR item, in order |
| Project.RowOf | app/Screens/Project/Project.tsx:508-514 | a recent row keeps id and time, normalises the status and carries the card payload |
| Project.RecentData | app/Screens/Project/Project.tsx:487-515 | one recent row per DPR item, in order |
| Project.RecentProgressBounded | app/Screens/Project/Project.tsx:487-494 | every recent row's progress lies in [0, 1] |
| Project.SortDirectMessages | app/Screens/Project/Project.tsx:73-77 | the previews are permuted into newest-first order, and previews with the same time keep their order |
| Project.DirectMessages | app/Screens/Project/Project.tsx:54-78 | two previews. "dm-1" (stamped now) comes first exactly when now is at least the fixed time of "dm-2"; at equal times the stable sort keeps the written order. |
| Project.DemoOrder | app/Screens/Project/Project.tsx:54-78 | sorting the two demo previews gives "dm-1", "dm-2" when now is at least the time of "dm-2", and "dm-2", "dm-1" otherwise |
| Project.MissingTimeSortsLast | app/Screens/Project/Project.tsx:75-76 | a preview without a time, read as 0, sorts after any preview with a positive time |
| RecentTask.Sorted | app/Screens/Project/RecentTask.tsx:22-28 | a newest-first permutation of `tasks \|\| []`. Tasks with the same time keep their order. |
| RecentTask.SliceEnd | app/Screens/Project/RecentTask.tsx:30 | the end index of `slice(0, k)`, with negative `k` counted from the end, clamped to the length |
| RecentTask.Visible | app/Screens/Project/RecentTask.tsx:19-30 | a newest-first prefix of the sorted list, with maxItems defaulting to 6. For a non-negative maxItems its length is min(maxItems, n); for a negative one it is n + maxItems, or 0 when that is not positive. |
| RecentTask.VisibleAreNewest | app/Screens/Project/RecentTask.tsx:22-30 | every shown task is at least as new as every task left out |
| RecentTask.DisplayTitle | app/Screens/Project/RecentTask.tsx:74 | the title, or "Untitled" when it is empty; never empty |
| RecentTask.DropWeekday | app/Screens/Project/RecentTask.tsx:113 | dropping the first word of `toDateString()` leaves "Mon DD YYYY" |
| RecentTask.DateText | app/Screens/Project/RecentTask.tsx:113 | the date shown after a week is month, two-digit day and year, separated by spaces |
| RecentTask.RelativeUnits | app/Screens/Project/RecentTask.tsx:105-112 | the chained floor divisions equal direct division. Each threshold test corresponds to a bound on the difference. |
| RecentTask.FormatRelative | app/Screens/Project/RecentTask.tsx:101-114 | an unparsable date gives "". Otherwise the result per bucket of the difference is "just now", "Nm ago", "Nh ago" or "Nd ago", and after seven days the date text. |
| CardsData.Tasks | app/Screens/MyTasks/CardsData.tsx:83-104 | the task list is `data` when it is an array, else the answer itself when that is an array, else `items`, else empty |
| CardsData.FilterByStatus | app/Screens/MyTasks/CardsData.tsx:110-113 | keeps exactly the tasks whose status equals the filter ignoring case |
| CardsData.FilteredTasks | app/Screens/MyTasks/CardsData.tsx:108-114 | "all" keeps everything; otherwise a task is kept if and only if it matches |
| CardsData.FilterAppend | app/Screens/MyTasks/CardsData.tsx:110-113 | filtering distributes over concatenation, so order is kept |
| CardsData.FilteredCount | app/Screens/MyTasks/CardsData.tsx:116-117 | the filtered count is the number of matching tasks and at most the total count |
| CardsData.FilterIdempotent | app/Screens/MyTasks/CardsData.tsx:108-114 | filtering twice equals filtering once |
| CardsData.Round | app/Screens/MyTasks/CardsData.tsx:184 | `Math.round` gives the integer within half of x, rounding halves up |
| CardsData.Pct | app/Screens/MyTasks/CardsData.tsx:181-184 | the shown percentage lies in 0..100. It is the raw value rounded when that is in range, and clamped otherwise. |
| CardsData.PctIgnoresUnit | app/Screens/MyTasks/CardsData.tsx:181-183 | unlike the project screen, the percentage does not depend on the work-completion unit |
| CardsData.StyleFor | app/Screens/MyTasks/CardsData.tsx:159-174 | the chip colours of each known status. The neutral colours appear exactly when the status is none of them. |
| CardsData.StyleIgnoresCase | app/Screens/MyTasks/CardsData.tsx:160 | the style does not depend on letter case |
| CardsData.DisplayStatus | app/Screens/MyTasks/CardsData.tsx:177 | the status text, or "pending" when missing or empty |
| CardsData.Chip | app/Screens/MyTasks/CardsData.tsx:177-178 | the chip's colours are those of the shown status; its text is that status upper-cased and never empty |
| CardsData.MissingStatusIsPending | app/Screens/MyTasks/CardsData.tsx:177-178 | a task without a status shows an orange "PENDING" chip |
| CardsData.FormatDate | app/Screens/MyTasks/CardsData.tsx:119-141 | "-" without a date; otherwise six characters: two day digits that read back as the day, a space, and the month's name |
| CardsData.TimeUnits | app/Screens/MyTasks/CardsData.tsx:148-151 | minutes, hours and days derived in a chain agree with direct division, and each threshold is a bound on the difference |
| CardsData.TimeAgo | app/Screens/MyTasks/CardsData.tsx:143-157 | "" without a time. "Just now" appears exactly under a minute. Otherwise minutes, hours or days ago, with "days" plural from two days on. |
| MyTask.StatsOf | app/Screens/MyTasks/MyTask.tsx:27-32 | the summary, or all-zero counts when there is none |
| MyTask.Items | app/Screens/MyTasks/MyTask.tsx:41-77 | five cards with their ids and counts; "My Tasks" shows the sum of the other four |
| MyTask.NoSummaryAllZero | app/Screens/MyTasks/MyTask.tsx:27-77 | without a summary every card shows 0 |
| MyTask.ItemIdsDistinct | app/Screens/MyTasks/MyTask.tsx:41-77 | the five card ids are distinct |
| MyTask.CardPress | app/Screens/MyTasks/MyTask.tsx:79-84 | a press opens the bucket screen with the card's id and title |
| MyTask.EveryBucketSameQuery | app/Screens/MyTasks/CardsData.tsx:73-77 | every bucket sends the same query string, because the list query drops `cardStatus` |
| Company.StatusKey.Label | app/Screens/Company/Company.tsx:22-26 | each status label is non-empty and has no lower-case letter |
| Company.LabelsDistinct | app/Screens/Company/Company.tsx:22-26 | two statuses with the same label are the same status |
| Company.StatusKey.Icon | app/Screens/Company/Company.tsx:246-263 | every status has its own non-empty chip icon, so the fallback "circle" is never drawn |
| Company.IconsDistinct | app/Screens/Company/Company.tsx:246-263 | two statuses with the same chip icon are the same status |
| Company.InitialActivityFacts | app/Screens/Company/Company.tsx:159-207 | five seed events with ids "1" to "5". All are well formed, and the status changes chain from one to the next. |
| Company.Sent | app/Screens/Company/Company.tsx:230-244 | blank text changes nothing. Otherwise exactly one comment by "You" with the trimmed text is appended and the box is cleared. Well-formed feeds stay well formed. |
| Company.SendTwice | app/Screens/Company/Company.tsx:230-244 | two sends append two comments in send order |
| Company.TaskActivity.constructor | app/Screens/Company/Company.tsx:217-225 | the screen starts in progress, with the seed feed and an empty box |
| Company.TaskActivity.SetCommentText | app/Screens/Company/Company.tsx:567 | typing changes only the comment box |
| Company.TaskActivity.SendComment | app/Screens/Company/Company.tsx:230-244 | the new feed and comment box are those `Sent` gives; the status is unchanged |
| Company.TaskActivity.SetStatus | app/Screens/Company/Company.tsx:659-682 | choosing a row sets the status and nothing else |
| Company.TaskActivity.Selected | app/Screens/Company/Company.tsx:662-680 | a row is selected exactly when it is the current status |
| Company.OneRowSelected | app/Screens/Company/Company.tsx:659-682 | at most one status row is selected |
| Card.ParseIntHex | app/components/Cards/Card.tsx:36 | `parseInt(s, 16)` is NaN exactly when no hex digit follows the white space, sign and `0x` prefix |
| Card.ParseIntHexOfDigits | app/components/Cards/Card.tsx:36 | a plain string of hex digits parses to its value |
| Card.ToInt32 | app/components/Cards/Card.tsx:37-39 | the 32-bit conversion that `>>` and `&` apply: in range, congruent modulo 2^32, identity on small values, and 0 for NaN |
| Card.Channels | app/components/Cards/Card.tsx:36-39 | each channel is a byte; NaN gives black |
| Card.HexToRgba | app/components/Cards/Card.tsx:27-42 | the CSS text "rgba(r, g, b, alpha)" with the decoded channels |
| Card.HashIsOptional | app/components/Cards/Card.tsx:28 | a leading "#" does not change the colour |
| Card.ShorthandExpands | app/components/Cards/Card.tsx:29-34 | "abc" gives the same colour as "aabbcc" |
| Card.SixDigitChannels | app/components/Cards/Card.tsx:36-39 | for six digits the channels are the value's three bytes, high to low |
| Card.ChannelsRoundTrip | app/components/Cards/Card.tsx:27-42 | writing three bytes as "#rrggbb" and decoding gives the bytes back |
| Card.NoDigitsIsBlack | app/components/Cards/Card.tsx:36-41 | a colour with no hex digits renders as black |
| Card.BaseColor | app/components/Cards/Card.tsx:55 | the given colour, or "#6C5CE7" when it is missing or empty |
| Card.GradientColors | app/components/Cards/Card.tsx:57-61 | three stops: the base colour at alpha 0.18, then at 0.03, then "transparent" |
| ProfilePlaceholder.Words | app/components/profilePlaceholder.tsx:16-18 | the words of a non-blank name are non-empty and contain no white space |
| ProfilePlaceholder.WordsOfJoin | app/components/profilePlaceholder.tsx:16-18 | words written with any surrounding white space and any runs of white space between them come back as exactly those words |
| ProfilePlaceholder.FirstLetters | app/components/profilePlaceholder.tsx:19-20 | one first letter per non-empty word, in order |
| ProfilePlaceholder.Initials | app/components/profilePlaceholder.tsx:16-22 | undefined exactly without a name; "" for a blank name. Otherwise the upper-cased first letters of the first two words, with no lower-case letter. |
| ProfilePlaceholder.ShowsIcon | app/components/profilePlaceholder.tsx:36 | the icon shows exactly when there is no name or it is blank |
| ProfilePlaceholder.Background | app/components/profilePlaceholder.tsx:30 | black exactly when initials are shown, grey otherwise |
| ProfilePlaceholder.BlankNameShowsIcon | app/components/profilePlaceholder.tsx:16-36 | a name of blanks shows the icon on grey |
| ProfilePlaceholder.NamedShowsInitials | app/components/profilePlaceholder.tsx:16-36 | a name with a visible character shows initials on black |
| Sidebar.FindUser | app/layout/Sidebar.tsx:33 | the user found is in the list and its `_id` reads as the id. Nothing is found exactly when no user's `_id` does. |
| Sidebar.FindUserIsFirst | app/layout/Sidebar.tsx:33 | the user found is the first match |
| Sidebar.Me | app/layout/Sidebar.tsx:31-34 | no user without a truthy stored id and an array; otherwise the first match |
| Sidebar.DisplayName | app/layout/Sidebar.tsx:36-40 | the first present, trimmed, non-blank value among `me.name`, the stored name and the stored e-mail, else "User". It is never empty and always trimmed. |
| Sidebar.DisplayEmail | app/layout/Sidebar.tsx:42-45 | `me.email`, else the stored e-mail, trimmed, else "" |
| Sidebar.Initial | app/layout/Sidebar.tsx:47 | exactly one character: the first character of the shown name, upper-cased, which is not white space |
| Sidebar.AttachmentUrl | app/layout/Sidebar.tsx:49-52 | `me`'s trimmed URL, else the stored one untrimmed, else undefined; the result is never falsy |
| Sidebar.SignedOutUsesStoredRecord | app/layout/Sidebar.tsx:31-40 | without a stored id the name comes from the stored record alone |
| EditProfile.UserId | app/Screens/profile/EditProfile.tsx:28 | the stored `userID` when it is truthy, else "" |
| EditProfile.ToStr | app/Screens/profile/EditProfile.tsx:46 | null and undefined give ""; a string is kept |
| EditProfile.Subtype | app/Screens/profile/EditProfile.tsx:68 | never empty. It is the segment between the first "/" and the second "/" (or the end), or "jpg" when there is no slash or that segment is empty. |
| EditProfile.SubtypeOf | app/Screens/profile/EditProfile.tsx:68 | for "type/sub" the extension is "sub" |
| EditProfile.GuessName | app/Screens/profile/EditProfile.tsx:67-68 | the picker's file name, else "photo_<now>.<ext>", with the type defaulting to "image/jpeg"; never empty |
| EditProfile.GuessNameOfType | app/Screens/profile/EditProfile.tsx:67-68 | without a file name, a "type/sub" asset is named "photo_<now>.sub" |
| EditProfile.PickedImage | app/Screens/profile/EditProfile.tsx:62-75 | a cancelled or empty pick selects nothing. Otherwise a photo is selected exactly when the first asset has a non-empty URI, and it is that asset, with its guessed name and its type defaulting to "image/jpeg". |
| EditProfile.SafeTrim | app/Screens/profile/EditProfile.tsx:82 | null and undefined give ""; a string is trimmed |
| EditProfile.PayloadTextFields | app/Screens/profile/EditProfile.tsx:91-99 | each text field is sent exactly when its trimmed value is not empty, and then with that value |
| EditProfile.PayloadAttachment | app/Screens/profile/EditProfile.tsx:101-107 | an attachment is sent exactly for a `file:` or `content:` URI. It is sent last, named "avatar.jpg" and typed "image/jpeg" when the picker gave neither. |
| EditProfile.PayloadOrder | app/Screens/profile/EditProfile.tsx:89-107 | at most five parts, with the text fields in the order name, email, phone, about, before any attachment |
| EditProfile.PayloadEmpty | app/Screens/profile/EditProfile.tsx:78-107 | nothing is sent exactly when all fields are blank and the photo is not local. This can happen while `canSubmit` holds, for a stored remote photo. |
| EditProfile.MergedKey | app/Screens/profile/EditProfile.tsx:113-129 | each of the ten written keys ends up holding its override |
| EditProfile.StoredUserId | app/Screens/profile/EditProfile.tsx:118 | the stored id is the server's `_id`, else the edited id |
| EditProfile.StoredTypedFields | app/Screens/profile/EditProfile.tsx:119-124 | name, email, phone and about take the server's value, else the trimmed typed value |
| EditProfile.StoredPreviousFields | app/Screens/profile/EditProfile.tsx:122-127 | emp_id, department, location and createdAt take the server's value, else the stored one |
| EditProfile.StoredAttachment | app/Screens/profile/EditProfile.tsx:126 | the photo URL falls back from the server's value to the stored value, then to the chosen URI |
| EditProfile.StoredKeepsOthers | app/Screens/profile/EditProfile.tsx:116-117 | every other stored key keeps its value |
| EditProfile.AvatarInitial | app/Screens/profile/EditProfile.tsx:137 | at most one character. It is "U" when name and e-mail are empty; otherwise the upper-cased first character of the trimmed name, or of the trimmed e-mail when the name is empty. It is "" when the chosen name or e-mail is only blanks (a blank name hides the initial even when an e-mail is set). |
| EditProfile.AppendText | app/Screens/profile/EditProfile.tsx:96-99 | `if (v) fd.append(k, v)` appends exactly that field's part |
| EditProfile.BuildFormData | app/Screens/profile/EditProfile.tsx:89-107 | the appended parts are the payload |
| EditProfile.ProfileForm.constructor | app/Screens/profile/EditProfile.tsx:31-37 | the form starts empty and not hydrated |
| EditProfile.ProfileForm.Hydrate | app/Screens/profile/EditProfile.tsx:40-54 | without a user only `hydrated` is set. Otherwise each field is `toStr` of the stored value, and the photo is the stored URL when that is truthy. |
| EditProfile.ProfileForm.PickImage | app/Screens/profile/EditProfile.tsx:60-76 | the photo becomes the picked image, or stays as it was; no other field changes |
| EditProfile.ProfileForm.Submit | app/Screens/profile/EditProfile.tsx:84-135 | nothing happens without a user id. Otherwise the payload is sent, and a successful reply is stored merged over the old record, or over `{}`. |
| EditProfile.ProfileForm.Press | app/Screens/profile/EditProfile.tsx:84-230 | the button does nothing unless `canSubmit` holds and no edit is in flight. Otherwise it sends the trimmed payload, saves exactly when the server accepts, and then stores the reply merged over the stored record (`{}` when there is none). |
| EditProfile.ProfileForm.CanSubmit | app/Screens/profile/EditProfile.tsx:78-80 | submitting is allowed exactly when the user id is truthy and a photo is chosen or some field has a non-white-space character |
| MainSignIn.FailureMessage | app/Screens/Auth/MainSignIn.tsx:116-121 | the wrong-credentials message appears exactly when `status` or `originalStatus` is 401; otherwise the connection message |
| MainSignIn.UserDataFields | app/Screens/Auth/MainSignIn.tsx:91-102 | the stored user record has only the seven listed keys. Each holds the matched user's value under the same key (`_id` for `userID`) and is absent when the user lacks it. |
| MainSignIn.AfterLogin | app/Screens/Auth/MainSignIn.tsx:70-104 | after the login call, the user record is stored only together with the token, and exactly on success; a success shows no dialog |
| MainSignIn.Login | app/Screens/Auth/MainSignIn.tsx:56-123 | blank credentials show "Missing Fields" and make no call. A login in flight blocks the press. Otherwise the trimmed credentials are sent, and a failed login stores nothing and shows "Login Failed". Success means the user record was stored and no dialog shows. |
| MainSignIn.MissingTokenStoresNothing | app/Screens/Auth/MainSignIn.tsx:72-75 | a reply without token or user id stores nothing and shows the server error |
| MainSignIn.UnknownUserKeepsToken | app/Screens/Auth/MainSignIn.tsx:77-89 | an id missing from the user list leaves the token stored but no user record |
| MainSignIn.UserListFailureKeepsToken | app/Screens/Auth/MainSignIn.tsx:77-121 | a failing or non-array user list ends in "Login Failed" after the token was stored |
| MainSignIn.SignedInStoresMatchedUser | app/Screens/Auth/MainSignIn.tsx:77-112 | a full success stores the token and the matched user's record |
| MainSignIn.SignInScreen.constructor | app/Screens/Auth/MainSignIn.tsx:38-44 | empty inputs, a hidden dialog, and storage as it was |
| MainSignIn.SignInScreen.ShowDialog | app/Screens/Auth/MainSignIn.tsx:49-53 | sets the title and message and shows the dialog |
| MainSignIn.SignInScreen.HideDialog | app/Screens/Auth/MainSignIn.tsx:54 | hides the dialog and changes nothing else |
| MainSignIn.UserLookup | app/Screens/Auth/MainSignIn.tsx:79-112 | the token stays stored whatever the lookup gives; the user record is stored exactly on success, and success shows no dialog |
| MainSignIn.SignInScreen.FinishLogin | app/Screens/Auth/MainSignIn.tsx:70-112 | the screen and storage afterwards are what `AfterLogin` says |
| MainSignIn.SignInScreen.LookUpUser | app/Screens/Auth/MainSignIn.tsx:79-112 | with the token already stored, the screen and storage afterwards are what `UserLookup` says |
| MainSignIn.SignInScreen.HandleLogin | app/Screens/Auth/MainSignIn.tsx:56-123 | the dialog, stored token and user record, password, login calls and navigation afterwards are what `Login` says. The password is cleared only on success. |
| Http.StripTrailingSlashes | app/store/slices/dprSlice.ts:39 | removes exactly the trailing run of "/" |
| Http.BaseUrl | app/store/slices/loginSlice.ts:6 | the setting without trailing slashes, or "" when unset (the same expression as dprSlice.ts:39) |
| Http.BaseUrlIgnoresExtraSlashes | app/store/slices/dprSlice.ts:39 | the base URL never ends in "/", and extra slashes on the setting do not change it |
| Http.BaseUrlIdempotent | app/store/slices/dprSlice.ts:39 | stripping twice equals stripping once |
| DprSlice.SearchParams.constructor | app/store/slices/dprSlice.ts:56 | a new `URLSearchParams` is empty |
| DprSlice.SearchParams.Set | app/store/slices/dprSlice.ts:57-60 | the new list is `SetPair` of the old one |
| DprSlice.SetPair | app/store/slices/dprSlice.ts:57-60 | a name that is not present is appended as a pair. For a present name, the pairs of other names are unchanged, and the pairs before its first occurrence stay in place. That place holds (name, value), and no later pair has the name, so exactly one pair has it. |
| DprSlice.SetFirstSpec | app/store/slices/dprSlice.ts:57-60 | replacing the first pair of a present name and dropping its later pairs leaves every other pair, and the name occurs exactly once, at its first place |
| DprSlice.FirstWith | app/store/slices/dprSlice.ts:57-60 | the index of the first pair with the name, or the length when there is none |
| DprSlice.SearchParams.ToString | app/store/slices/dprSlice.ts:62 | empty exactly when no pair is set; for ASCII pairs the text parses back to the list |
| DprSlice.QueryPairs | app/store/slices/dprSlice.ts:55-60 | page and limit come first and are always present (defaults 1 and 10); at most two more pairs follow, named search or projectId |
| DprSlice.QueryPairsNames | app/store/slices/dprSlice.ts:55-60 | search is present exactly when non-empty and projectId exactly when truthy; each name at most once, in the order page, limit, search, projectId |
| DprSlice.GetAllDprQuery | app/store/slices/dprSlice.ts:55-63 | a GET of "dpr/dpr?" followed by the serialised pairs |
| DprSlice.QueryReadsBack | app/store/slices/dprSlice.ts:62 | for ASCII arguments the query string parses back to the same pairs |
| DprSlice.CardStatusIgnored | app/store/slices/dprSlice.ts:55 | `cardStatus` has no effect on the query |
| DprSlice.UpdateDprLog | app/store/slices/dprSlice.ts:67-85 | a PATCH of "dpr/<id>/updateStatus" whose body has exactly the four passed members |
| DprSlice.UpdateIgnoresProjectAndActivity | app/store/slices/dprSlice.ts:68-85 | project and activity ids are not sent |
| DprSlice.UpdateWithoutId | app/store/slices/dprSlice.ts:77 | a missing id is written as "undefined" in the URL |
| DprSlice.GetAllDprStatusQuery | app/store/slices/dprSlice.ts:89-93 | a GET of "dpr/dpr-status" |
| DprSlice.UpdateRefreshesQueries | app/store/slices/dprSlice.ts:64-94 | every tag the queries provide is invalidated by an update |
| FormUrlEncoding.Serialize | app/store/slices/dprSlice.ts:62 | the serialised text is empty exactly when there are no pairs |
| FormUrlEncoding.Encode | app/store/slices/dprSlice.ts:62 | the encoded text uses only unreserved characters, "+", "%" and hex digits |
| FormUrlEncoding.EncodeHasNoSeparators | app/store/slices/dprSlice.ts:62 | an encoded name or value contains neither "&" nor "=" |
| FormUrlEncoding.DecodeEncode | app/store/slices/dprSlice.ts:62 | decoding an encoded ASCII string gives it back |
| FormUrlEncoding.ParseSerialize | app/store/slices/dprSlice.ts:62 | serialised ASCII pairs parse back to the same pairs in order |
| LoginSlice.LoginQuery | app/store/slices/loginSlice.ts:42-47 | a POST of the credentials, unchanged, to "/logiN-IT" |
| LoginSlice.UsersQuery | app/store/slices/loginSlice.ts:51 | a GET of "/get-all-user-IT" without a body |
| LoginSlice.TransformUsers | app/store/slices/loginSlice.ts:52 | the envelope's `data` |
| LoginSlice.UserTagId | app/store/slices/loginSlice.ts:56 | a user's tag has an id exactly when the user has an `_id` |
| LoginSlice.UserTags | app/store/slices/loginSlice.ts:56 | one `User` tag per user, in order |
| LoginSlice.ProvidesUserTags | app/store/slices/loginSlice.ts:53-59 | n users give n+1 tags, one per user in order and then `LIST`; no result gives `LIST` alone |
| LoginSlice.EditUserQuery | app/store/slices/loginSlice.ts:67-71 | a PUT of the data, unchanged, to "/edit-user/<id>" |
| LoginSlice.EditInvalidates | app/store/slices/loginSlice.ts:72-75 | an edit invalidates exactly the edited user's tag and `LIST` |
| LoginSlice.EditRefreshesUsers | app/store/slices/loginSlice.ts:53-75 | every edit invalidates a tag the user list provides. The edited user's own tag is among them whenever the list held that user. |
| Order.SortNewestFirst | app/Screens/Project/RecentTask.tsx:24-26 | the sort by a descending key: a permutation, newest first |
| Order.InsertNewest | app/Screens/Project/RecentTask.tsx:24-26 | inserting into a newest-first list keeps it newest first and adds exactly the item |
| Order.SortOfNewestFirst | app/Screens/Project/Project.tsx:73-77 | a list that is already newest first, ties included, is left as it is |
| Order.WithKey | app/Screens/Project/RecentTask.tsx:24-26 | the items with a given key, in order; all of them carry that key |
| Order.InsertNewestWithKey | app/Screens/Project/RecentTask.tsx:24-26 | an inserted item lands before every item with the same key |
| Order.SortStable | app/Screens/Project/RecentTask.tsx:24-26 | the sort is stable: for every key, the items with that key come out in the order they went in |
| Json.TrimmedIfTruthy | app/layout/Sidebar.tsx:37 | `v && String(v).trim()` counts as present exactly when v is truthy and its trimmed text is not empty |
| Json.Truthy | app/store/slices/dprSlice.ts:59-60 | a truthy value is neither null nor undefined; a string is truthy exactly when its text is not empty |
| Json.ToText | app/layout/Sidebar.tsx:33 | `String(v)` keeps a string as it is, and undefined gives "undefined" |
| Json.Coalesce | app/Screens/profile/EditProfile.tsx:118-127 | `a ?? b` is a unless a is null or undefined |
| Json.OverrideKeepsOthers | app/Screens/profile/EditProfile.tsx:117 | keys that no override mentions keep their value |
| Json.OverrideSetsKey | app/Screens/profile/EditProfile.tsx:116-128 | a key overridden once holds its override, and undefined removes it |
| JsText.Trim | app/Screens/Project/Project.tsx:464 | `trim()` returns the slice from the end of the leading white space to the start of the trailing white space. That slice neither starts nor ends with white space, and everything after it is white space. |
| JsText.TrimIdempotent | app/Screens/Project/Project.tsx:464 | trimming twice equals trimming once |
| JsText.ToLower | app/Screens/Project/Project.tsx:464 | `toLowerCase()` keeps the length and lower-cases each ASCII letter in place |
| JsText.SplitWhitespace | app/components/profilePlaceholder.tsx:18 | `split(/\s+/)` gives at least one piece, and no piece contains white space |
| JsText.SplitJoinRuns | app/components/profilePlaceholder.tsx:18 | whitespace-free pieces joined by white-space runs of any length split back into exactly those pieces. Only the first and last piece may be empty. |
| JsText.JoinRunsEnds | app/components/profilePlaceholder.tsx:18 | a joined string ends with its last piece |
| JsText.SplitOnSecond | app/Screens/profile/EditProfile.tsx:68 | the second piece of `split(sep)` is the text between the first and second separator |
| Json.Override | app/Screens/profile/EditProfile.tsx:113-129 | every key of the result was in the old record or is one of the overriding keys |
| Calendar.Pad2 | app/Screens/MyTasks/CardsData.tsx:123 | `padStart(2, "0")` of the day's digits reads back as the day |
| Calendar.MonthName | app/Screens/MyTasks/CardsData.tsx:125-139 | the three-letter month name at the index |
| Calendar.DateWords | app/Screens/Project/RecentTask.tsx:113 | `toDateString()` has four space-free words: weekday, month, day and year |

## Left out

- Network, storage, navigation, the keyboard, animations and the image picker are not modelled in their own right. Their results are parameters; storage is a field of the sign-in screen and a return value of the profile submit.
- `fetchBaseQuery`, `prepareHeaders` (the `x-auth-token` header) and RTK Query's own caching are library behaviour. Only request descriptors and tags are modelled.
- Dates are not parsed. A parsed timestamp in milliseconds is an input, and so are the local calendar fields of a parsed date. Time zones and `Date` string parsing are not modelled.
- Strings are sequences of Unicode code points. UTF-16 lengths and surrogate pairs are not modelled, and case mapping is ASCII only.
- JSON numbers are integers, and progress and percentages are reals. Number coercion of strings, `NaN`, infinities, and floating-point rounding of `v / 100` are not modelled.
- Card.HexToRgba: the alpha is taken as the text JavaScript prints for it, because number-to-string formatting of floats is not modelled.
- Card.ParseIntHex: the value is exact for any length, while JavaScript loses precision above 2^53.
- RecentTask.Sorted: a date that fails to parse makes the comparator return `NaN`, which is not modelled. All times are valid integers.
- Project.SortDirectMessages: the first preview's time is the current time, passed in; its ISO text is not modelled.
- Stored and returned records are flat maps of scalar JSON values. Nested objects are not modelled, nor `JSON.parse` failures of stored text, nor a null element in the user list. In MainSignIn.tsx:82-84, `users.find` reads `item._id` and would throw on one. Sidebar.tsx:33 reads `u?._id`, so there a null element reads as "undefined" and simply fails to match.
- EditProfile.ProfileForm.Submit: a storage write that throws is not modelled.
- MainSignIn.SignInScreen.HandleLogin: a storage write that throws is not modelled, and the in-flight flag is an input. The alternative outcome would be the "Login Failed" connection message.
- LoginSlice.UserTagId: a numeric `_id` is written as its decimal text, while RTK Query would compare the number. An `_id` of null gives the tag id "null", whereas the source gives a tag whose id is null.
- company detail screen: the tabs, modals and task-type picker are presentation state and are not modelled. The row icons and colours are modelled only as `Icon`.
- The code has no progress aggregator, quantity cap, feed builder, status codec or status-change submitter, so the model has none either; see "Notes on the code" above.
- Context-only files are part of no module: `TaskHeader.tsx`, `Contacts.tsx`, the navigators, `App.tsx`, the store setup, `expenseSlice.ts` and `MainActivity.kt`.
