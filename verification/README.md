# INES second-hand materials marketplace — a Dafny model

A campus marketplace where students list second-hand items, browse the
approved listings, message sellers and report abuse, while administrators
moderate items, users and reports. This project models, in Dafny 4.11,
three parts of that system and proves what they promise:

- **The REST handlers** of the Express back end (items, messages, reports,
  users, authentication). Each handler is a pure function from the
  requester (id and role), its inputs and an abstract database (`Store`:
  users, items, messages and reports as sequences plus auto-increment
  counters) to an `Outcome`: the reply (`Ok`, `BadRequest`,
  `Unauthorized`, `Forbidden`, `NotFound`, `ServerError`) and the database
  afterwards. Sequelize queries become filters and stable sorts over
  sequences; every handler keeps the schema's integrity constraints
  (`Store.Valid`: unique primary keys below their counters, unique emails).
- **The string utilities** of the front end: the form validators and the
  locale-free formatters.
- **Pure helpers inside UI components**: the moderation list filter and
  updates, the filter sidebar toggles, the browse page's query string and
  pagination bar, and the register and profile form validation and
  payloads.

Files: `common.dfy` (shared `Option`, `Reply`, `Verdict`, the requester and
JavaScript truthiness with the `x || old` merge), `strings.dfy` (character
classes, `substring`, decimal rendering), `ordering.dfy` (filter,
subsequence, count, stable sorts), `store.dfy` (records, the database and
primary-key lookup), then one file per modelled source file.

Library calls the model cannot see are parameters: `hash` (bcrypt
hashing), `matches` (`comparePassword`), `sign` (JWT signing), `now` (the
clock) and the uploaded file's path.

## Model

| member | source | states |
|---|---|---|
| Store.StatusNameRoundTrip | backend/models/Item.js:35-38 | the two item statuses are parsed back from the names the ENUM column stores |
| Items.CreateItem | backend/controllers/itemController.js:7-26 | a complete body creates an item owned by the requester with the upload's path (or none), unapproved and available, appended under a fresh id with every other table untouched; a missing NOT NULL field is a 500 that writes nothing |
| Items.GetItems | backend/controllers/itemController.js:29-61 | a non-admin only ever sees approved items, whatever the query; an admin's `approved` filter keeps exactly the items whose flag equals (value == "true"); category and status filters keep equal values; an item is listed iff it is stored and passes the WHERE clause; newest first |
| Items.AdminUnfilteredGetsAll | backend/controllers/itemController.js:34-43 | an administrator passing no filter receives every stored item |
| Items.GetItemById | backend/controllers/itemController.js:64-89 | 404 iff the id is missing, 403 iff the item is unapproved and the requester is neither its owner nor an admin, otherwise the stored item; nothing is written |
| Items.Merge | backend/controllers/itemController.js:106-132 | each text field takes the supplied value only when truthy, status likewise; id, owner and creation time never change; `approved` moves only for an admin who sends it and becomes true only for the exact text "true"; a new upload replaces the photo |
| Items.UpdateItem | backend/controllers/itemController.js:92-144 | 404 iff missing, 403 iff not owner or admin, and the store is unchanged on every error; on success exactly the rows with that id become the merge, the other rows and tables stay, and the integrity constraints hold |
| Items.DeleteItem | backend/controllers/itemController.js:147-177 | 404 iff missing, 403 iff not owner or admin, store unchanged on error; on success the item is gone and every other item remains; the handler itself deletes or rewrites no other row |
| Items.GetUserItems | backend/controllers/itemController.js:180-198 | a permutation of that owner's stored rows, approved or not (each exactly as often as it is stored, nothing else), newest first |
| Items.NewestOnSale | backend/controllers/itemController.js:227-231 | exactly min(n, count) approved, available stored rows, none returned more often than it is stored, newest first: all of them when there are no more than n, and no on-sale item left out is newer than one returned |
| Ordering.FilterCounts | backend/controllers/itemController.js:182-183 | a WHERE clause keeps every selected row exactly as often as it is stored |
| Ordering.LimitKeepsLargest | backend/controllers/itemController.js:229-230 | `LIMIT` applied after a descending `ORDER BY` keeps the largest keys: nothing left out has a larger key than anything kept |
| Items.GetRecentItems | backend/controllers/itemController.js:223-244 | `limit` falls back to 4 when absent, unparsable or 0; a negative limit is refused by the database; otherwise the min(limit, count) newest approved available items, newest first, none left out newer than one returned |
| Items.GetFeaturedItems | backend/controllers/itemController.js:247-269 | the min(10, count) newest approved, available stored items, newest first: all of them when there are at most ten, and no on-sale item left out is newer than one returned |
| Items.OwnPendingItemOnlyOutsideListing | backend/controllers/itemController.js:39-43 | a non-admin owner never finds their own pending item in the listing, although the lookup by id and the per-user listing hand it to them |
| Items.JsonTrueUnapproves | backend/controllers/itemController.js:118-120 | an admin sending the JSON boolean true sets `approved` to false: only the text "true" approves |
| Items.ApprovalScenario | backend/controllers/itemController.js:7-144 | a new item is hidden (403) from another user until an admin's update with "true" makes it visible and approved |
| Messages.SendMessage | backend/controllers/messageController.js:6-27 | 404 and nothing stored iff the receiver is missing; otherwise one unread message from the requester to the receiver with that content is appended and nothing else changes |
| Messages.GetConversation | backend/controllers/messageController.js:30-79 | 404 iff the other user is missing; otherwise a permutation of the stored messages between the two, in either direction (each exactly as often as it is stored, nothing else), oldest first, as they were before this request; afterwards every message from the other user to the requester differs from before only in being read, and every other message is unchanged |
| Messages.UnreadClearedAfterGetConversation | backend/controllers/messageController.js:40-47 | right after opening a conversation its unread count is 0 |
| Messages.Partners | backend/controllers/messageController.js:85-100 | the counterpart ids have no repeats and are exactly the users the requester has sent a message to or received one from |
| Messages.Latest | backend/controllers/messageController.js:106-126 | none iff the pair exchanged no message; otherwise a message between the pair with no later one |
| Messages.GetConversations | backend/controllers/messageController.js:82-153 | one entry per distinct counterpart and exactly the counterparts; each entry's latest message is between the pair with maximal time, its user info is the summary of the latest message's other party, and its unread count is the number of unread messages the counterpart sent the requester |
| Messages.FirstMessageScenario | backend/controllers/messageController.js:6-153 | after a first message the receiver has one conversation with one unread message, and opening it brings the count to 0 |
| Messages.SingleMessageConversations | backend/controllers/messageController.js:82-153 | with a single message in the database, sent to the requester by someone else, there is one conversation, with the sender, whose unread count is 1 exactly when the message is unread |
| Messages.MarkAsRead | backend/controllers/messageController.js:156-180 | 404 iff missing, 403 iff the requester is not the receiver, store unchanged on error; on success only that message becomes read |
| Messages.MarkAsReadIdempotent | backend/controllers/messageController.js:173 | marking a message read a second time changes nothing |
| Messages.DeleteMessage | backend/controllers/messageController.js:183-207 | 404 iff missing, 403 iff the requester is neither the sender nor an admin, store unchanged on error; on success exactly that message is gone |
| Reports.CreateReport | backend/controllers/reportController.js:5-44 | 400 iff no target is given, 404 iff a given target does not exist, nothing stored on any error; a created report has the requester as reporter and exactly the given targets and reason |
| Reports.BothTargetsAccepted | backend/controllers/reportController.js:10-37 | a report naming an existing user and an existing item at once is accepted and stored with both |
| Reports.GetReports | backend/controllers/reportController.js:47-75 | 403 iff not an admin (route guard); otherwise all reports, newest first |
| Reports.GetReportById | backend/controllers/reportController.js:78-109 | 403 iff not an admin, 404 iff missing, otherwise the stored report with that id |
| Reports.DeleteReport | backend/controllers/reportController.js:112-127 | 403 iff not an admin, 404 iff missing, store unchanged on error; on success exactly that report is gone |
| Users.GetUsers | backend/controllers/userController.js:7-17 | 403 iff not an admin (route guard); otherwise every user without the password |
| Users.GetUserById | backend/controllers/userController.js:20-35 | 404 iff missing; otherwise every column of that user's row (id, names, email, phone, photo, role, creation time) and no password; nothing is written |
| Users.MergeUser | backend/controllers/userController.js:51-74 | names and phone take the supplied value only when truthy; the role changes only for an admin sending a truthy role; id, email, password and creation time never change; a new upload replaces the photo |
| Users.UpdateUser | backend/controllers/userController.js:38-89 | 404 iff missing, 403 iff the requester is neither that user nor an admin, store unchanged on error; on success only that user's row becomes the merge and unique emails are kept |
| Users.DeleteUser | backend/controllers/userController.js:92-136 | 404 iff missing, 403 iff neither self nor admin; on success that user row is gone and every other user stays; the handler itself deletes or rewrites no other row |
| Auth.Register | backend/controllers/authController.js:14-49 | 400 "User already exists" iff the email is on file, nothing written; otherwise a user whose stored password is `hash(password)` and with the default role "user" (any role sent is ignored) is appended and the reply carries its id, names, email, role and a token for its id |
| Auth.Login | backend/controllers/authController.js:52-83 | a body without an email, or a known email without a password, is a 500; otherwise success iff a user with that email exists and the password matches its hash, with that user's id, names, email and role, and every other failure is the same 401 "Invalid credentials"; nothing is written |
| Auth.LoginFailuresIndistinguishable | backend/controllers/authController.js:57-66 | an unknown email and a wrong password get identical replies |
| Auth.RegisterThenLogin | backend/controllers/authController.js:14-83 | after a successful registration, logging in with the same email and password yields the same session |
| Auth.GetMe | backend/controllers/authController.js:86-96 | the requester's own row without its password, or none when the row is gone |
| Validators.ValidateEmailMatchesPattern | frontend/src/utils/validators.js:2-5 | the computed check accepts exactly the strings of the form local@domain.tld over the regex's character classes with a tld of at least two letters |
| Validators.EmailSplitIsCanonical | frontend/src/utils/validators.js:4 | any split of a string into the regex's parts is accepted |
| Validators.InesEmailShape | frontend/src/utils/validators.js:8-11 | local + "@ines.ac.rw" is accepted iff the local part is non-empty and uses only the allowed characters |
| Validators.InesEmailIsEmail | frontend/src/utils/validators.js:2-11 | every INES address passes the general email check |
| Validators.ValidatePassword | frontend/src/utils/validators.js:14-17 | true iff at least 8 characters and at least one ASCII digit |
| Validators.ValidatePhoneNumberMatchesPattern | frontend/src/utils/validators.js:19-23 | true iff the number is "0", "250" or "+250", then "7", then exactly eight digits |
| Validators.ValidatePhoneNumber | frontend/src/utils/validators.js:19-23 | an accepted number has length 10, 12 or 13 |
| Validators.PhoneFormsAccepted | frontend/src/utils/validators.js:21-22 | each of the three prefixes followed by "7" and eight digits is accepted |
| Validators.Trim | frontend/src/utils/validators.js:31 | `trim` keeps what lies between the leading and trailing JavaScript white space: the result starts right after the leading blanks, only blanks follow it, and neither of its ends is a blank |
| Validators.RequiredFieldIffNonBlank | frontend/src/utils/validators.js:30-32 | true iff a value is present and has a character that is not JavaScript white space |
| Validators.ValidateImage | frontend/src/utils/validators.js:34-46 | no file passes; a file over 5 MiB fails whatever its type; otherwise it passes iff its type is one of the four image types |
| Formatters.TruncateText | frontend/src/utils/formatters.js:51-54 | missing, empty or short-enough text comes back unchanged; longer text keeps exactly its first maxLength characters followed by "..." |
| Formatters.TruncateKeepsPrefix | frontend/src/utils/formatters.js:51-54 | the result always starts with min(length, maxLength) characters of the input and is at most maxLength + 3 long |
| Formatters.TruncateDefaultExample | frontend/src/utils/formatters.js:51 | with the default length 100 a 101-character text becomes its first 100 characters and "..." |
| Formatters.GetInitials | frontend/src/utils/formatters.js:56-64 | "??" when both names are missing or empty, otherwise one upper-cased first character per present name, first name first |
| Formatters.InitialsPlaceholderNotReserved | frontend/src/utils/formatters.js:57-61 | names starting with "?" also produce "??" |
| Formatters.InitialsAreUpper | frontend/src/utils/formatters.js:56-64 | initials are at most two characters and none is a lower-case letter |
| Formatters.FormatPhoneNumber | frontend/src/utils/formatters.js:35-49 | "" for a missing number, the input unchanged unless it starts with "+250", otherwise "+250" and the three groups separated by spaces |
| Formatters.FormatPhoneKeepsDigits | frontend/src/utils/formatters.js:39-45 | the three groups put back together are exactly what followed "+250" |
| Formatters.FormatFullNumber | frontend/src/utils/formatters.js:39-45 | a thirteen-character "+250" number is shown as "+250 XX XXX XXXX" |
| Formatters.RoundDiv | frontend/src/utils/formatters.js:73-78 | `Math.round(a / b)` is the integer nearest to a/b, halves rounded up |
| Formatters.BucketMonotone | frontend/src/utils/formatters.js:73-85 | an older date never gets a finer unit (just now, m, h, d, mo, y) than a newer one |
| Formatters.BucketThresholds | frontend/src/utils/formatters.js:73-85 | the unit changes exactly at 59.5 s, 3 569.5 s, 84 569.5 s, 2 546 969.5 s and 29 762 969.5 s of elapsed time |
| Formatters.FormatDateRelative | frontend/src/utils/formatters.js:67-86 | "" for a missing date; "just now" below 59.5 s; then "m", "h", "d", "mo" and "y" on the millisecond ranges above, each count at least 1 and below the next unit's size (60, 60, 24, 30, 12) |
| Formatters.FutureIsJustNow | frontend/src/utils/formatters.js:72-80 | any date in the future, or the present, reads "just now" |
| Formatters.CountIsPositive | frontend/src/utils/formatters.js:74-85 | past "just now" the rounded minute count is at least 1 |
| ManageItems.ApplyFilters | frontend/src/components/admin/ManageItems.jsx:59-84 | the shown items never outnumber the loaded ones and each passes both the search and the status filter |
| ManageItems.ApplyFiltersIsSubsequence | frontend/src/components/admin/ManageItems.jsx:59-83 | the shown list keeps the loaded order and only drops items |
| ManageItems.ApplyFiltersMembers | frontend/src/components/admin/ManageItems.jsx:63-81 | an item is shown iff it is loaded, its lower-cased title, description or category contains the lower-cased term (or the term is empty), and it has the approval the filter asks for |
| ManageItems.StatusFiltersPartition | frontend/src/components/admin/ManageItems.jsx:74-80 | the pending, approved and rejected lists together count every item exactly once |
| ManageItems.ConfirmAction | frontend/src/components/admin/ManageItems.jsx:96-133 | delete keeps exactly the items with another id; approve and reject change `approved` only on the items with the selected id and leave every other item identical; any other action changes nothing |
| ManageItems.ConfirmIgnoresService | frontend/src/components/admin/ManageItems.jsx:96-133 | the list is the same whether the service call succeeds or throws |
| ManageItems.DeleteKeepsOrder | frontend/src/components/admin/ManageItems.jsx:98-100 | deleting keeps the remaining items in order |
| FilterSidebar.Toggle | frontend/src/components/FilterSidebar.jsx:39-41 | an absent value is appended at the end; a present value is removed everywhere and nothing else is |
| FilterSidebar.ToggleTwiceRestores | frontend/src/components/FilterSidebar.jsx:39-41 | ticking and then unticking an absent value restores the list exactly |
| FilterSidebar.UntickKeepsOrder | frontend/src/components/FilterSidebar.jsx:40 | unticking keeps the remaining values in order |
| FilterSidebar.ToggleKeepsNoDuplicates | frontend/src/components/FilterSidebar.jsx:39-41 | a list without repeats has none after any toggle |
| FilterSidebar.ToggleCategory | frontend/src/components/FilterSidebar.jsx:37-48 | the category list is toggled and the conditions and prices are untouched |
| FilterSidebar.ToggleCondition | frontend/src/components/FilterSidebar.jsx:50-61 | the condition list is toggled and the categories and prices are untouched |
| FilterSidebar.CategoryAndConditionCommute | frontend/src/components/FilterSidebar.jsx:37-61 | a category toggle and a condition toggle commute |
| FilterSidebar.FromInitial | frontend/src/components/FilterSidebar.jsx:21-35 | the starting state takes each list from the prop or empty, and each price from the prop when it is a non-empty text, otherwise empty |
| FilterSidebar.Reset | frontend/src/components/FilterSidebar.jsx:75-82 | the reset state is the state the sidebar starts from without initial filters, and ticking any category or condition afterwards leaves exactly that value ticked |
| FilterSidebar.ResetForgets | frontend/src/components/FilterSidebar.jsx:75-82 | the reset state does not depend on the filters set before |
| ItemsPage.SetSpec | frontend/src/pages/ItemsPage.jsx:119 | after `params.set` the name reads back the new value, occurs exactly once, and every pair with another name is kept in order |
| ItemsPage.ApplyFiltersParams | frontend/src/pages/ItemsPage.jsx:90-97 | the query string is exactly the non-empty filters in form order followed by page=1 |
| ItemsPage.ApplyFilters | frontend/src/pages/ItemsPage.jsx:85-100 | back to page 1, the form unchanged, and page reads "1" in the new query string |
| ItemsPage.ResetFilters | frontend/src/pages/ItemsPage.jsx:103-110 | every filter empty, page 1, and page=1 the only parameter, which is also what applying the empty form would write |
| ItemsPage.HandlePageChange | frontend/src/pages/ItemsPage.jsx:113-122 | a page outside 1..totalPages changes nothing; otherwise it becomes current, page reads its number and every other parameter is kept |
| ItemsPage.ElementFor | frontend/src/pages/ItemsPage.jsx:296-336 | a page gets a button iff it is the first, the last or next to the current one, an ellipsis iff it is not a button and two away from the current one, otherwise nothing |
| ItemsPage.PageBar | frontend/src/pages/ItemsPage.jsx:276-337 | the bar exists only for more than one page and has one element per page |
| ItemsPage.EndsAreButtons | frontend/src/pages/ItemsPage.jsx:300-302 | the first and last pages always get a button |
| ItemsPage.AtMostFiveButtons | frontend/src/pages/ItemsPage.jsx:300-305 | at most five page buttons are drawn |
| ItemsPage.AtMostTwoGaps | frontend/src/pages/ItemsPage.jsx:322-325 | at most two ellipses are drawn |
| ProfilePage.ValidateForm | frontend/src/pages/ProfilePage.jsx:44-64 | passes iff no new password is typed, or the current one is given and the new ones match and have at least 6 characters; failures are reported in the order current password, mismatch, length |
| ProfilePage.UpdatePayload | frontend/src/pages/ProfilePage.jsx:79-89 | names and phone always, current and new password only when a new one is typed |
| ProfilePage.PayloadOmitsEmail | frontend/src/pages/ProfilePage.jsx:79-89 | neither the email nor the confirmation is ever sent |
| ProfilePage.SubmittedChangeIsChecked | frontend/src/pages/ProfilePage.jsx:44-89 | a sent password change carries a non-empty current password and a new one of at least 6 characters |
| ProfilePage.ConfirmationAloneBlocks | frontend/src/pages/ProfilePage.jsx:46-55 | a confirmation typed without a new password blocks the form |
| RegisterPage.ValidateForm | frontend/src/pages/RegisterPage.jsx:38-57 | passes iff the five required fields are filled, the passwords are equal and at least 6 characters; failures are reported in the order missing field, mismatch, length |
| RegisterPage.InitialFormRefused | frontend/src/pages/RegisterPage.jsx:7-16 | the untouched form fails for its empty fields |
| RegisterPage.Payload | frontend/src/pages/RegisterPage.jsx:68-73 | every form key in order except the confirmation, empty strings included and role "user" by default, and the photo only when one is chosen |
| RegisterPage.PayloadOmitsConfirmation | frontend/src/pages/RegisterPage.jsx:70 | the confirmation never leaves the page |
| RegisterPage.FormWeakerThanValidator | frontend/src/pages/RegisterPage.jsx:51-54 | "abcdef" passes the form yet fails the shared password validator |
| RegisterPage.ValidatorStrongerThanForm | frontend/src/pages/RegisterPage.jsx:38-57 | every password the shared validator accepts also passes the form when typed twice with the other fields filled |

## Left out

- Express routing and middleware: only the `authorize("admin")` guards of the report routes (backend/routes/reports.js:16-22) and the user list (backend/routes/users.js:19) are modelled, as `Forbidden` replies. Token verification is assumed done: the requester's id and role are inputs.
- middleware/auth.js, models/User.js and models/Message.js are not part of this model; the NOT NULL columns and the unique email of users are inferred from the controllers' use of them.
- Uploads and photo cleanup (`multer`, `fs.existsSync`/`unlinkSync`): a photo is an optional path; the unlinking in updateItem, deleteItem, updateUser and deleteUser is not modelled.
- bcrypt hashing, `comparePassword` and JWT signing are function parameters; their security is not modelled.
- Exceptions: `ServerError` is modelled only where the code would evidently throw (a missing NOT NULL field on insert, a status outside the ENUM on update, a negative LIMIT, a missing email in register, a missing email or password in login); database outages are not.
- Request parsing: `parseInt` of `limit` is an `Option<int>` (None for NaN); ids in paths are positive integers; dates are integer milliseconds and `new Date(...)` parsing is not modelled.
- Login (Auth.Login): a JSON `email: null` cannot be expressed; `None` stands for an absent email, which throws and answers 500, whereas the code turns `null` into `WHERE email IS NULL`, finds no user and answers 401 (backend/controllers/authController.js:56-59).
- Register (Auth.Register): the controller passes the raw password to `User.create` (backend/controllers/authController.js:25-32); any hashing happens in models/User.js, which is not part of this model. The parameter `hash` stands for whatever that model stores on create, the identity included, and `Auth.RegisterThenLogin` assumes that `comparePassword` accepts a password against what `hash` stored for it.
- String equality is exact: the database collation under which `findOne({ where: { email } })`, the unique email column and the `category` filter compare (case-insensitive by default in MySQL, whose `RAND()` backend/controllers/itemController.js:205 uses) is not modelled, and neither is `Store.Valid`'s email uniqueness under it.
- Ordering ties: the database's order among equal `created_at` values is unspecified; the model's stable sort keeps storage order.
- The associations included in replies (Seller, Sender, Receiver, Reporter, TargetUser) are not modelled beyond the conversation's user summary.
- Payload (RegisterPage.Payload): a file input cleared after a choice sets the photo to `undefined` (frontend/src/pages/RegisterPage.jsx:28), which passes the `!== null` test and is appended as the text "undefined"; the model's `None` stands only for the initial `null` and omits the field.
- Case mapping and character classes are ASCII only (the lower-casing in the moderation search, the upper-casing in initials).
- Locale and floating-point formatting: `formatDate`, `formatCurrency`, `formatTime` and `validateItemPrice` are not modelled.
- The first `getFeaturedItems` (backend/controllers/itemController.js:201-220) is overwritten by the second definition and is not modelled.
- The admin screens that call `/api/admin/*` endpoints, and the report status workflow shown only in the UI, have no backend counterpart and are not modelled.
- ProfilePage sends its update to `/api/users/profile`, a route the back end does not define; only the payload is modelled.
- Rendering, hooks, navigation, local storage and the HTTP services of the front end are not modelled; the moderation list's service call is a boolean (succeeded or threw).
- DeleteUser (Users.DeleteUser): the foreign-key actions the database derives from the associations (backend/models/index.js:8-19, created by `sequelize.sync` in backend/utils/dbInit.js:10), such as deleting a user's items or nulling a report's `item_id`, are not modelled; the contract covers the handler's own statements only, and `Store.Valid` has no referential integrity.
- DeleteItem (Items.DeleteItem): the same foreign-key actions on reports (`item_id`) are not modelled; the contract covers the handler's own statements only.
- Strings are sequences of Unicode scalar values, while JavaScript's `length`, `substring` and `[0]` count UTF-16 code units; the members below agree with the code only on text outside the astral planes (no emoji or other surrogate pairs).
- ValidatePassword (Validators.ValidatePassword): the 8-character minimum counts scalar values, not UTF-16 units (frontend/src/utils/validators.js:16).
- TruncateText (Formatters.TruncateText): cuts after maxLength scalar values, where `substring` cuts after maxLength UTF-16 units and can split a surrogate pair.
- GetInitials (Formatters.GetInitials): takes a whole first scalar value, where `firstName[0]` is a single UTF-16 unit (a lone surrogate for an emoji).
- ValidateForm (ProfilePage.ValidateForm, RegisterPage.ValidateForm): the 6-character minimum counts scalar values, not UTF-16 units.

## Notes

- A registration with an email already on file is answered 400 `BadRequest` "User already exists" (backend/controllers/authController.js:19-22), not 409 `Conflict`.
- A report naming both a user and an item is accepted (backend/controllers/reportController.js:9-37); `Reports.BothTargetsAccepted` states it.
- Registration ignores any role in the request body (backend/controllers/authController.js:16); every new account gets the default role.
