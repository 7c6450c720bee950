# pinsync in Dafny

pinsync is an image-sharing site. A Node/Express backend keeps two MongoDB
collections, users and uploads. It serves registration, login, artist
approval by an admin, user deletion, image upload, likes, downloads and
upload deletion. A React client shows a masonry gallery with search and
category filters, artist profile pages, an upload popup, a sign-up popup and
an admin dashboard.

This project models the core of both halves.

- **Server** (`server.dfy`). The route handlers are methods of a `Store`
  class. The class holds the two collections as maps keyed by record id,
  plus an id counter. A ghost log records every e-mail attempt. The store
  invariant `Valid()` says three things:
  - records sit under their own ids;
  - usernames are unique;
  - every upload keeps `likeCount == |likedBy|` with no duplicates in `likedBy`.

  Every handler preserves the invariant. Each handler states its error
  replies in the order the code checks them, and states its whole new state.
- **Client.** Each component's state changes are modelled as functions on
  value records: filtering, like and download updates, the dashboard lists,
  bucket updates, routing and form checks. The server's answer to a request
  is a parameter, with `None` standing for a non-ok or failed response. Where
  the source loops, the model is a method with a loop proved against a
  function:
  - the masonry `forEach`;
  - the `for … in` over the upload buckets;
  - the file filter that overwrites the error message;
  - the `FormData` appends.
- **Shared modules.** `common.dfy` holds `Option`, `Filter`, subsequences
  and sums. `text.dfy` holds ASCII string functions. `gallery.dfy` holds the
  client's image record and the per-user upload buckets.
- **Scenarios** (`scenarios.dfy`). Each states, from the handlers'
  contracts alone, the replies to a request sequence on a fresh store.

A JavaScript `undefined` value is modelled as `None` where the code treats
it differently from `""`. The empty string stands for "missing" only in
fields the code tests for truthiness (for example the registration, login and upload
fields); the like handler's `userName` is not such a field (see
"## Left out").

## Model

| member | source | states |
|---|---|---|
| Server.Status | backend/server.js:117-410 | the HTTP status of each failure: 400 missing credentials, duplicate username, missing decision, not an artist, missing upload fields; 401 bad login; 403 not an admin; 404 missing user or upload |
| Server.Portfolio | backend/server.js:136-141 | one `{filename, "/uploads/" + filename}` entry per stored file, in file order |
| Server.NewUser | backend/server.js:121-150 | role defaults to `"normal"`, email to `""`; `approved` holds exactly when the role is not `"artist"`; no liked images; portfolio from the files |
| Server.NewUpload | backend/server.js:326-333 | a new upload has zero likes, zero downloads, no likers, satisfies the like invariant, and its `src` is `/uploads/<file>` |
| Server.ToggleLike | backend/server.js:365-372 | the user's membership in `likedBy` flips, everyone else's is kept, the count moves by one in the matching direction, no other field changes |
| Server.ToggleLikeKeepsConsistent | backend/server.js:365-372 | from `likeCount == \|likedBy\|` with distinct likers, a toggle keeps both |
| Server.ToggleLikeTwice | backend/server.js:365-372 | two toggles by one user restore the count and the set of likers, and the exact record when the user had not liked it |
| Server.ToggleLikeDistinct | backend/server.js:365-372 | N distinct new likers, one after another, are appended in order and raise the count by N |
| Server.Store.constructor | backend/server.js:39-66 | the empty store satisfies the invariant |
| Server.Store.Register | backend/server.js:117-170 | empty username or password gives 400 and then a taken username gives 400, both with no change; otherwise exactly one user is added under a fresh id, the reply is 201 with that user minus the password, and usernames stay unique |
| Server.Store.Login | backend/server.js:173-197 | empty username or password gives 400; otherwise the login succeeds exactly when some stored user has both the username and the password, and the reply is that user without the password; a failure is 401 |
| Server.Store.FindByUsername | backend/server.js:212-224 | succeeds exactly when the username is taken, returning that user without the password; 404 otherwise |
| Server.Store.UpdateLikedImages | backend/server.js:227-246 | 404 for an unknown id; otherwise `likedImages` is replaced only when a list was sent, and nothing else changes |
| Server.Store.Approve | backend/server.js:249-286 | checks in order, the first failure winning with no change: no decision 400, the admin check `AdminGate` fails 403, no target 404, target not an artist 400; success happens exactly when all pass (without `adminId`: when any admin exists), changes only the target's `approved`, and logs exactly one e-mail attempt whatever its outcome |
| Server.Store.SendNotification | backend/server.js:93-110 | one attempt is appended to the log; a failed delivery is recorded and swallowed |
| Server.Store.DeleteUser | backend/server.js:289-314 | a failed admin check `AdminGate` gives 403, then an unknown target gives 404, both with no change; the delete succeeds exactly when the check passes and the target exists (without `adminId`: when any admin exists and the target exists), and then only the target is removed and the reply carries it without the password |
| Server.AdminGate | backend/server.js:259-262 | the admin check as written: a given `adminId` must name an admin; a missing one passes exactly when some admin exists |
| Server.StrictAdminGate | backend/server.js:259-262 | the intended admin check: `adminId` is given and names an admin |
| Server.MissingAdminIdBypass | backend/server.js:295-298 | with an admin registered, the written check admits a request without `adminId` and the intended check refuses it |
| Server.StrictAdminGateRefines | backend/server.js:259-262 | the intended check refuses a missing id, agrees with the written one whenever an id is given, and never admits more |
| Server.WithoutPassword | backend/server.js:155 | the reply record: the user's fields without the password |
| Server.Store.CreateUpload | backend/server.js:317-341 | succeeds exactly when file, name, category and uploader are present (400 otherwise, no change); adds exactly one upload that starts at zero counts |
| Server.Store.Like | backend/server.js:356-380 | 404 with no change for an unknown id; otherwise only that upload changes, by the toggle |
| Server.Store.Download | backend/server.js:383-397 | 404 with no change for an unknown id; otherwise only that upload's `downloads` rises by exactly one |
| Server.Store.DeleteUpload | backend/server.js:399-410 | 404 with no change for an unknown id; otherwise only that upload is removed |
| Scenarios.RegisterTwice | backend/server.js:129-133 | a second registration of the same username is refused with 400 |
| Scenarios.LoginAfterRegister | backend/server.js:181-185 | a login with the registered password succeeds and one with a differently cased password gets 401 |
| Scenarios.NonAdminCannotApprove | backend/server.js:249-261 | a new artist is unapproved, and an approval request naming a normal user as admin is refused with 403 |
| Scenarios.DeleteWithoutAdminId | backend/server.js:295-300 | once an admin is registered, a delete request without `adminId` removes another user with a 200 reply |
| Scenarios.AdminApproves | backend/server.js:249-282 | an admin's approval of an artist succeeds, the artist comes back approved, and exactly one e-mail attempt is made even when delivery fails |
| Scenarios.AdminDeletesUser | backend/server.js:289-309 | an admin's delete of a registered user succeeds with 200 and the reply names that user |
| Scenarios.LikeTwice | backend/server.js:365-372 | a first like gives `likedBy == ["carol"]` and count 1; a second like gives back no likers and count 0 |
| Scenarios.DownloadThenDelete | backend/server.js:383-410 | one download counts 1; the delete succeeds; afterwards the upload is a 404 |
| Common.Filter | src/App.js:90 | `Array.prototype.filter`: every kept element passes the test, every passing element is kept, and the order is kept; how often each is kept is stated by `Common.FilterCounts` |
| Common.FilterCount | src/App.js:90 | a passing element is kept as many times as it occurs, a failing one not at all |
| Common.FilterCounts | src/App.js:90 | as multisets, the result is exactly the passing part of the input |
| Common.RemoveAll | backend/server.js:368 | `filter(u => u !== x)`: no occurrence of `x` is left, every other element is kept as often as it occurs, and the order is kept (a subsequence) |
| Common.SumOf | src/ArtistProfile.js:76 | `reduce((acc, e) => acc + f(e), 0)` over the sequence |
| Common.FilterAppend | src/LoginPopup.js:47-59 | filtering a sequence extended by one element filters the prefix, then that element |
| Common.RemoveAllOnce | backend/server.js:366-367 | removing a liker listed once shortens a duplicate-free list by exactly one and keeps it duplicate-free |
| Common.RemoveAllAppended | backend/server.js:366-370 | removing a just-appended absent element gives the list back |
| Text.Lower | src/mainsection.js:129-132 | `toLowerCase` on ASCII letters, character by character, length kept |
| Text.Upper | src/ArtistProfileView.js:73 | `toUpperCase` on ASCII letters, character by character, length kept |
| Text.TrimStart | src/mainsection.js:129 | the result is a suffix of the string, everything removed is white space, and the result does not start with white space |
| Text.TrimEnd | src/mainsection.js:129 | the result is a prefix of the string, everything removed is white space, and the result does not end with white space |
| Text.Trim | src/mainsection.js:129 | `trim`: no longer than the string, and neither starting nor ending with white space |
| Text.TrimSlice | src/mainsection.js:129 | `trim` keeps one contiguous piece of the string with only white space before and after it |
| Text.StartsWith | src/ArtistProfileView.js:80 | `startsWith`: the prefix is the string's first characters |
| Text.Includes | src/mainsection.js:129 | `includes`: the substring starts at some position of the string |
| Text.IncludesEmpty | src/mainsection.js:129 | every string includes the empty string, as in JavaScript |
| Gallery.ImagesBy | src/ArtistProfile.js:75 | exactly the images whose uploader is the user, each as often as it occurs, in order |
| Gallery.WithoutImage | src/ArtistProfile.js:80 | exactly the images whose id differs, each as often as it occurs, in order |
| Gallery.TotalLikes | src/ArtistProfile.js:76 | the sum of the images' like counts, a missing count taken as 0 |
| Gallery.TotalDownloads | src/ArtistProfile.js:77 | the sum of the images' download counts, a missing count taken as 0 |
| Gallery.TotalsSplitByUploader | src/ArtistProfile.js:76-77 | one user's like and download totals plus everyone else's add up to the whole gallery's totals, with missing counts as 0 |
| Gallery.TotalsNonNegative | src/ArtistProfileView.js:61-62 | totals over non-negative counts are non-negative |
| Gallery.WithoutAbsentImage | src/ArtistProfile.js:80 | filtering out an id no image carries changes nothing |
| Gallery.WithoutAppendedImage | src/ArtistProfile.js:80 | filtering out the id of an image just appended to images without that id gives the images back |
| Gallery.PruneBucket | src/ArtistProfile.js:84-88 | only that user's bucket is filtered; it is deleted when it becomes empty; every other bucket is unchanged |
| LoginPopup.ResetFields | src/LoginPopup.js:26-35 | every input is cleared, the file list is emptied and the role is back to `"normal"`; only the mode and the loading flag are kept |
| LoginPopup.CheckedOneMore | src/LoginPopup.js:47-58 | checking one more file appends it to the accepted files exactly when it passes, and makes its message the error exactly when it fails |
| LoginPopup.CheckPortfolio | src/LoginPopup.js:47-58 | the filter pass yields exactly the accepted files in order and, as error, the last rejected file's message or the previous one |
| LoginPopup.HandleImageUpload | src/LoginPopup.js:37-65 | more than 3 files sets only the error; otherwise the kept files are exactly the images of at most 5 MB, in order, which replace the portfolio only when there is at least one, and the error is the last rejected file's message |
| LoginPopup.AcceptedFiles | src/LoginPopup.js:47-59 | every kept file is an `image/` type of at most 5 MB, every such file is kept as often as it occurs and nothing else, and the order is kept |
| LoginPopup.IsAcceptedImage | src/LoginPopup.js:48-57 | a file passes when its type starts with `image/` and its size is at most 5 MB |
| LoginPopup.LastRejection | src/LoginPopup.js:47-58 | the error after the filter pass, as each rejected file overwrites it |
| LoginPopup.LastRejectionIsLast | src/LoginPopup.js:50-56 | when file `k` is rejected and every later file passes, the error is file `k`'s message, naming the type failure before the size failure |
| LoginPopup.LastRejectionNone | src/LoginPopup.js:47-58 | when every file passes, the error is left as it was |
| LoginPopup.HandleSignUp | src/LoginPopup.js:67-91 | an empty field, then a password under 6 characters, are rejected with their message and no request; otherwise the four fields are sent, followed by one `portfolio` entry per file exactly when the role is `"artist"` |
| LoginPopup.SignUpFields | src/LoginPopup.js:82-85 | the four text fields every sign-up request starts with |
| MainSection.FilteredImages | src/mainsection.js:127-135 | an order-preserving subsequence; with a query, every kept name includes the lowercased, trimmed query; with a category, every kept category matches ignoring case; every matching image is kept, as often as it occurs, and nothing else |
| MainSection.Matches | src/mainsection.js:127-134 | an image passes when the query is empty or its name includes the lowercased, trimmed query, and the category is empty or equals its category ignoring case |
| MainSection.NoFilterKeepsAll | src/mainsection.js:128-133 | an empty query and category keep every image |
| MainSection.BlankQueryKeepsNamed | src/mainsection.js:128-130 | a query of only white space trims to the empty string, so every named image is kept and every unnamed one is dropped |
| MainSection.UpdatedLikes | src/mainsection.js:111-114 | the image id is liked afterwards exactly when the server's `likedBy` names the user; if so it is appended, otherwise every occurrence goes, in order, and every other id is kept as often as it occurs |
| MainSection.WithLikes | src/mainsection.js:115-121 | only images with the id take the new `likedBy` and `likeCount`; all others are unchanged |
| MainSection.WithDownloads | src/mainsection.js:82-86 | only images with the id take the new `downloads` |
| MainSection.HandleLike | src/mainsection.js:98-125 | with no user, only the login popup opens and no request is made; a failed reply changes nothing; a good reply updates the likes and the images |
| MainSection.HandleSave | src/mainsection.js:71-96 | with no user, only the login popup opens and no request is made; otherwise only the downloads of the image change |
| MainSection.LikeFollowsServer | src/mainsection.js:111-121 | after the server's toggle, the page counts the image as liked exactly when the user had not liked it, and shows the new count |
| MainSection.LikeTwiceFollowsServer | src/mainsection.js:111-121 | liking twice restores the user's liked ids and the server's record |
| AdminDashboard.Partition | src/AdminDashboard.js:29-31 | pending is exactly the unapproved artists and approved is exactly the approved artists, each as often as in the response and in server order |
| AdminDashboard.PartitionIsExact | src/AdminDashboard.js:30-31 | with ids unique, the lists hold only artists, share no id, and every artist is in exactly one of them |
| AdminDashboard.HandleApprove | src/AdminDashboard.js:63-74 | a non-ok reply changes nothing; on success the artist leaves pending by id, and the returned user is appended to approved only for an approval |
| AdminDashboard.ApproveKeepsPartition | src/AdminDashboard.js:63-71 | a decision confirmed with the artist's own record keeps the lists partitioned |
| AdminDashboard.FindByUsername | src/AdminDashboard.js:88 | `find`: the first account with that username, or none exactly when there is none |
| AdminDashboard.HandleDeleteUser | src/AdminDashboard.js:83-117 | no confirmation, or an unknown username, means no request; the request names the first such artist's id; on an ok reply every approved artist with that username goes and, when a setter was given, only that username's bucket is removed |
| AdminDashboard.SpliceIndex | src/AdminDashboard.js:124 | `splice` start normalisation: a negative start counts from the end, a start past the end removes nothing |
| AdminDashboard.SpliceOne | src/AdminDashboard.js:124 | the element at the normalised index is removed and the rest keep their order |
| AdminDashboard.SpliceOneRemovesOne | src/AdminDashboard.js:124 | as multisets, exactly that one element is removed |
| AdminDashboard.HandleDeleteUpload | src/AdminDashboard.js:119-131 | only with confirmation, a setter and an existing bucket is that bucket spliced; all other buckets are unchanged |
| App.PurgedBuckets | src/App.js:91-99 | every remaining bucket is a non-empty subsequence of its old one, and a bucket keeps its place whenever it held another image |
| App.PurgedEntry | src/App.js:91-99 | unfolding helper: spells out `PurgedBuckets` one key at a time (a bucket survives exactly when filtering it leaves something, and then holds the filtered images) |
| App.PurgeRemovesId | src/App.js:91-99 | afterwards no bucket holds the id and no bucket is empty |
| App.PurgeKeepsUntouched | src/App.js:93-98 | a non-empty bucket without the id is unchanged |
| App.PurgeUploads | src/App.js:93-98 | the loop over the bucket keys computes exactly the purged buckets |
| App.HandleDelete | src/App.js:83-107 | an ok reply removes the id from the images, keeping their order, and purges the buckets; otherwise nothing changes |
| App.RestoreSession | src/App.js:52-76 | no stored user leaves the session as it is; a failed lookup signs out (`""`, `"normal"`); a found user is signed in with their role, `"normal"` when it is empty |
| App.RestoreAuthenticates | src/App.js:52-76 | from signed out, the restored session is authenticated exactly when the stored user was found |
| App.ProfileRoute | src/App.js:148-169 | `/profile` shows the artist profile exactly for a signed-in artist, the normal profile exactly for a signed-in normal user, and redirects otherwise |
| App.AdminRoute | src/App.js:190-200 | `/admin` shows the dashboard exactly for a signed-in admin and redirects otherwise |
| App.ArtistRoute | src/App.js:218-233 | the editable profile exactly when the signed-in user is the URL's user, the read-only view otherwise |
| App.Resolve | src/App.js:128-204 | the route table, static segments compared ignoring case: `/`, `/about`, `/profile`, `/admin`, `/artist/<user>` and `/artist/view/<user>` each give their screen, every other path gives the catch-all redirect, and the admin page is reached only by `/admin` for an admin |
| App.AdminPathIgnoresCase | src/App.js:190-199 | `/Admin` is routed as `/admin` |
| App.IsAuthenticated | src/App.js:110 | signed in exactly when the username is not empty |
| Masonry.ColumnCount | src/block/Components/Masonry/Masonry.jsx:36-41 | 1 column up to 480, 2 up to 768, 3 up to 1024, 4 beyond, each as an if-and-only-if |
| Masonry.Column | src/block/Components/Masonry/Masonry.jsx:13-16 | column `c` holds the children whose index leaves remainder `c`, in order |
| Masonry.ColumnCountMonotonic | src/block/Components/Masonry/Masonry.jsx:36-41 | a wider window never has fewer columns |
| Masonry.Render | src/block/Components/Masonry/Masonry.jsx:4-16 | missing or non-array children give only the placeholder; otherwise exactly `columnCount` columns, column `c` holding the children at indices `≡ c` (mod `columnCount`) in order |
| Masonry.ColumnLength | src/block/Components/Masonry/Masonry.jsx:13-16 | each column has `n / columnCount` children, plus one for the first `n % columnCount` columns |
| Masonry.ChildPlacement | src/block/Components/Masonry/Masonry.jsx:14-16 | child `i` is row `i / columnCount` of column `i % columnCount` |
| Masonry.ColumnsBalanced | src/block/Components/Masonry/Masonry.jsx:13-16 | column lengths differ by at most one |
| Masonry.ColumnIsSubsequence | src/block/Components/Masonry/Masonry.jsx:14-16 | within a column the children keep their relative order |
| Masonry.ColumnsPartitionChildren | src/block/Components/Masonry/Masonry.jsx:13-16 | the column lengths add up to the number of children, and the columns together hold exactly the children, each once |
| ArtistProfile.ProfileUser | src/ArtistProfile.js:11-12 | the viewed profile is the URL's user, else the signed-in one |
| ArtistProfile.HandleDeleteImage | src/ArtistProfile.js:79-93 | the image leaves `images`; the viewed user's bucket, when present, is pruned; no other bucket changes |
| ArtistProfile.DeleteImageAgreesWithApp | src/ArtistProfile.js:79-93 | when only the viewed user's bucket can hold the image and none is empty, the profile delete and the app-wide delete leave the same buckets |
| ArtistProfile.DeletedBucket | src/ArtistProfile.js:82-88 | for one non-empty bucket, holding the image only if it is the viewed user's, the profile delete and the app-wide delete agree on whether it survives and on its contents |
| ArtistProfile.ProfileDestinationAsWritten | src/ArtistProfile.js:95-98 | `/profile/<user>` for the owner, `/artist/view/<user>` for anyone else |
| ArtistProfile.OwnerLinkRedirectsHome | src/ArtistProfile.js:96 | for every session, the owner's destination matches no route and redirects home |
| ArtistProfile.ProfileDestination | src/ArtistProfile.js:95-98 | corrected: `/artist/<user>` for the owner, unchanged for anyone else |
| ArtistProfile.DestinationReachesProfile | src/ArtistProfile.js:95-98 | the corrected destination opens the owner's editable profile, and the read-only view for anyone else |
| UploadPopup.Uploader | src/uploadPopup.js:53 | the stored username, or `"Unknown"` when there is none |
| UploadPopup.HandleUpload | src/uploadPopup.js:30-54 | a missing file, title or category, then a missing setter, leave their message and send nothing; otherwise the five fields go in order, with `website` only when non-empty |
| UploadPopup.NewImage | src/uploadPopup.js:83-95 | counts default to 0, `likedBy` to `[]`, an empty website to none, an empty time to now, and `src` is made absolute |
| UploadPopup.AddUpload | src/uploadPopup.js:97-107 | the image is appended to `images` and to the user's bucket, which is created when absent; other buckets are unchanged |
| UploadPopup.UploadThenDeleteRestores | src/uploadPopup.js:97-107 | deleting a fresh upload by its id restores the images and the buckets |
| UploadPopup.RestoredBucket | src/uploadPopup.js:97-107 | for one bucket, the delete after the upload leaves it as it was before the upload |
| ArtistProfileView.ProfileUsername | src/ArtistProfileView.js:8 | the prop, then the `username` parameter, then the `userName` parameter; empty exactly when all are |
| ArtistProfileView.Load | src/ArtistProfileView.js:15-44 | no username gives the error `"No artist specified in the URL."` and no request; success sets the artist and exactly their images; failure sets the message; the images change only on success |
| ArtistProfileView.LoadedImagesAreTheArtists | src/ArtistProfileView.js:36-37 | the shown images are exactly the artist's, and their likes plus everyone else's are the gallery's total |
| ArtistProfileView.WebsiteHref | src/ArtistProfileView.js:80 | always starts with `"http"`; unchanged when it already does, `"https://"` prefixed otherwise |
| ArtistProfileView.WebsiteHrefIdempotent | src/ArtistProfileView.js:80 | normalising twice is normalising once |
| ArtistProfileView.AvatarLetter | src/ArtistProfileView.js:73 | one character: the username's first character upper-cased, or `"?"` when it is missing or empty |

## Left out

- MongoDB, Express wiring, CORS, multer disk storage, static files and logging. These are framework and I/O. The collections are in-memory maps, and generated ids and stored file names are inputs.
- The e-mail transport and the message text. Each attempt is a ghost log entry, and delivery failure is an input.
- The `catch`/500 branches. They are caused by database, cast or parse failures, which are outside the model; a string `adminId` that is not an id is one such case. A missing `adminId` is not: it is modelled as `None` and reaches the admin check (`Server.AdminGate`).
- Request fields as objects. `express.json()` passes a body field such as `{"$ne": null}` straight into the Mongo filters of login, approval and user deletion (backend/server.js:182, 259, 295), where it acts as a query operator: it matches any admin or any user. The model types each request field as a value of one kind (a string, an id, an optional id, or `approved` as a boolean), so its admin gate and its login rule hold only for such fields; operator objects are not modelled.
- App.Resolve: a path is given already split at its slashes; trailing slashes, empty segments and URL decoding are not modelled, and case is ignored by ASCII lower-casing.
- Concurrency. This covers the read-then-save race in like and download, concurrent registrations, and React's stale-closure `images` in `handleDelete`. Every step is sequential.
- The listing routes `GET /users` and `GET /uploads`. They return the collection as it is; on the client their results are inputs (`Partition`'s list, the images).
- Timestamps: `createdAt`, `uploadedAt` and the `Date.now()` file-name prefix. `NewImage` takes the current time as an input.
- `fetch`, `localStorage`, `window.confirm`, `alert`, timers and `document`. They become parameters or are left out: the reply, the stored username, the confirmation, and whether `setUserUploads` was passed.
- The dashboard's refetch after a delete, and every notification banner.
- Login-popup login, `toggleSignUp`, the profile bio and website editing, rendering, animation and styles.
- Server.Store.Like: a body without `userName` is not modelled. The handler does not test the field (backend/server.js:358, 365, 370): `likedBy.includes(undefined)` is false, so `undefined` is pushed, stored as `null`, and `likeCount` rises; a second such request does not find `undefined` in `[null]` and appends again. That leaves duplicate `null` likers and breaks the like invariant `Consistent` and the toggle-twice round trip, which the model proves only for a string `userName`.
- Server.Store.Approve: `approved` is modelled as a boolean. `express.json()` passes any JSON value: `"false"` passes the `approved === undefined` test (backend/server.js:255), Mongoose casts it to a stored `false` (line 273), but the e-mail subject and the reply message test truthiness (lines 94-97 and 279), so a rejected artist is told "approved". The model ties the notice's flag to the stored flag and cannot express that split.
- Text.Lower: ASCII only. This also applies to Text.Upper, Text.Trim, Text.TrimStart, Text.TrimEnd, Text.TrimSlice, MainSection.Matches and ArtistProfileView.AvatarLetter. Full Unicode case mapping and white space are not modelled: JavaScript's `trim` also removes U+00A0, U+1680, U+2000 to U+200A, U+2028, U+2029, U+202F, U+205F, U+3000 and U+FEFF, and `toUpperCase` expanding one character into two (as for `ß`) does not occur in the model.
- LoginPopup.HandleSignUp: the password length counts characters, not UTF-16 code units.
- Aliasing. `{ ...prev }` copies the uploads map shallowly, so the source's in-place `splice`, `push` and `.uploads =` also change the bucket objects that the previous state shares. The model updates values and does not capture that sharing.
- AdminDashboard.HandleDeleteUser: `App` renders the dashboard without props, so in the running app `hasSetter` is false and the uploads map is `{}`. The model keeps both as inputs.
- MainSection.HandleLike: the server's `likedBy` and `likeCount` are taken as given. `LikeFollowsServer` ties them to the server's toggle.
- NaN and non-numeric counts. Counts are integers, and `|| 0` maps only a missing count to 0.

## Findings

| source | as written | input that shows it | evidently intended | confidence | as-written member | corrected member |
|---|---|---|---|---|---|---|
| src/ArtistProfile.js:96 | the owner's "View Profile" button navigates to `/profile/<user>` | owner `ann` on her profile: no route in src/App.js:128-204 matches `/profile/ann`, so the catch-all redirects to `/` | open the owner's own profile, which `/artist/<user>` does for the signed-in owner | medium, not executed | ArtistProfile.OwnerLinkRedirectsHome | ArtistProfile.DestinationReachesProfile |
| backend/server.js:295 | the admin check (the same as at backend/server.js:259) is `User.findOne({ _id: adminId, role: "admin" })` with `adminId` taken from the body unchecked; Mongoose drops a filter key whose value is `undefined` | a `DELETE /users/<kim>` (or `PUT /users/<id>/approve`) request whose JSON body has no `adminId`, once any admin is registered: the query asks only for some admin, so the request passes the 403 gate and the user is deleted | refuse a request that does not name an admin (`adminId` present and that user an admin) | medium, not executed | Scenarios.DeleteWithoutAdminId | Server.StrictAdminGateRefines |

The store's `Approve` and `DeleteUser` keep the check as written, so their
contracts describe the handlers as they stand; `Server.StrictAdminGate` is
the corrected check, and `Server.StrictAdminGateRefines` proves it closes
the gap without refusing any request that names an admin.
