# KidsTube backend: request handling, modelled in Dafny

This project models the request-handling core of the KidsTube backend. KidsTube is a
playlist/video service. Admins register and manage playlists and videos. Each admin
can also define PIN-protected restricted profiles (for example, child profiles). A
playlist lists the restricted profiles that may watch it in `associatedProfiles`.

The document store is modelled as four in-memory collections: users, restricted profiles,
playlists and videos. Each is a `seq` in natural (insertion) order, held by the class
`Database.Store`. Every request carries a principal (`Records.Principal`): the admin id of
the bearer token (`req.user.id`) and the restricted profile resolved from a PIN
(`req.restrictedUserId`). Either or both may be absent.

- Handlers that only read (`videoGet`, `playlistGet`, `/public/profiles`,
  `/public/verify-pin`) are pure functions from the collections and the request to a
  reply.
- Handlers that write (`videoPost`, `videoPatch`, `videoDelete`, `playlistPost`,
  `playlistPatch`, `playlistDelete`, `userPost`, `confirmEmail`, `restricted_usersPost`)
  are methods on the store. Each one states:
  - the status for every combination of checks, in the source's order;
  - the exact new contents of every collection;
  - that `Store.Valid()` still holds afterwards.
- The PIN middleware is a method that fills in `restrictedUserId` on a `RequestContext`
  object.

`Store.Valid()` is the invariant that every write keeps:

- `_id`s are unique in every collection;
- e-mail addresses are unique among users;
- restricted-profile names are unique across all admins;
- every video belongs to a stored playlist, and has the same `adminId` as that playlist.

The ownership and visibility rules that the handlers repeat inline are defined once, in
module `Authorization`. An admin may manage what carries their id. A restricted profile
may view a playlist that lists it, and the videos of such a playlist. Where they are used:
- The by-id branches of `videoGet` and `playlistGet`, and the by-playlist branch of
  `videoGet`, decide their 403 with `CanViewVideo` and `CanViewPlaylist`.
- Every write handler decides its 403 with `CanManage`.
- The listing and search branches are filtered queries (`OwnedVideos`, `SharedVideos`,
  `OwnedPlaylists`, `PlaylistsSharedWith`). `VideoGetShowsOnlyVisible` ties the video
  listings to `CanViewPlaylist`.
- The `/public` routes compare `AdminId` inline.

Modelling choices:
- Ids are an abstract type with equality.
- A request field that is absent is `None`. A string field counts as given (JavaScript
  truthiness) only when it is present and non-empty (`Records.Truthy`). An id field that
  the source tests for truthiness (`playlistId` in the video bodies, the query ids) is
  `None` when it is absent or empty.
- Dates are (year, month, day) triples. `today` is a parameter.
- The password cipher (`encrypt`) and the ids the store assigns to new documents
  (`newId`, fresh in its collection) are also parameters.

Behaviour kept exactly as the code has it:
- `playlistPatch` and `playlistDelete` check the missing id (400) before the missing admin
  (401). The video handlers check them the other way round.
- The `profileId` branch of `playlistGet` checks no principal at all.
- Search tries the restricted profile first. The plain video and playlist listings try
  the admin first.
- `restricted_usersPost`:
  - rejects a name that any admin's profile already has (409);
  - checks for a duplicate before it checks the fields;
  - sends no response when a field is missing (`status == None`).
- `userPost`:
  - applies the age rule first, so a missing birthdate fails as "under 18";
  - checks the required fields on the record as built, so the password test is on the
    ciphertext of whatever was sent.
- The PIN middleware takes the first profile in the store whose PIN matches, whichever
  admin owns it: its `findOne({ pin })` is not scoped by admin. `/verify-pin`, in
  contrast, only looks at the caller's own profiles.

## Model

| member | source | states |
|---|---|---|
| `Records.UserIndex` | controllers/userController.js:138 | `User.findById`: the index of a user with that id, or none exactly when no user has it |
| `Records.PlaylistIndex` | controllers/playlistController.js:50 | `Playlist.findById`: the index of a playlist with that id, or none exactly when no playlist has it |
| `Records.VideoIndex` | controllers/videoController.js:73 | `Video.findById`: the index of a video with that id, or none exactly when no video has it |
| `Records.VideoCount` | controllers/playlistController.js:66 | `countDocuments({ playlistId })`: at most the number of videos, and zero exactly when no video has that `playlistId`; as a set size, see `VideoCountIsNumberOfVideos` |
| `Records.VideoCountIsNumberOfVideos` | controllers/playlistController.js:66 | with unique video ids, `videoCount` is the number of distinct videos whose `playlistId` is the playlist |
| `Authorization.CanManage` | controllers/videoController.js:87 | the `isAdmin` test: true for the owner, false for another admin and without an admin |
| `Authorization.InAudience` | controllers/videoController.js:88 | the `isRestrictedUser` test: true exactly when a restricted profile is set and is listed; so never for an empty list |
| `Authorization.CanViewPlaylist` | controllers/playlistController.js:58-59 | the playlist rule (also videoController.js:107-108): nobody without a principal; the owner always; anyone else exactly when their restricted profile is listed |
| `Authorization.CanViewVideo` | controllers/videoController.js:87-88 | the video rule: nobody without a principal; the video's owner always; anyone else exactly when their restricted profile is listed by the video's playlist |
| `Authorization.VideoVisibleIffPlaylistVisible` | controllers/videoController.js:87-88 | in a consistent store, the video rule (video owner or shared profile) agrees with the rule for the video's own playlist |
| `VideoController.OwnedVideos` | controllers/videoController.js:158 | exactly the videos whose `adminId` is the admin |
| `VideoController.VideosOfPlaylist` | controllers/videoController.js:114 | exactly the videos whose `playlistId` is the playlist |
| `VideoController.SharedVideos` | controllers/videoController.js:162-167 | exactly the videos whose playlist lists the restricted profile |
| `Text.OccursInSomewhere` | controllers/videoController.js:131 | the shifting search finds the needle exactly when it is the block of the text at some position |
| `Text.Matches` | controllers/videoController.js:131 | the search test on one field: true exactly when the lower-cased query is a block of the lower-cased text at some position; so the empty query matches everything, and no text matches a longer query |
| `Text.MatchesIgnoresCase` | controllers/videoController.js:131 | the letter case of the query or of the text never changes the outcome (option `i`) |
| `Text.OccursInside` | controllers/videoController.js:131 | a needle occurs in any text that contains it as a block |
| `Text.MatchesPart` | controllers/videoController.js:131 | every block of a text, taken as the query, matches that text |
| `VideoController.MatchesSearch` | controllers/videoController.js:130-133 | the `$or` over name and description: true exactly when the name matches or the description matches; so the empty query matches every video |
| `VideoController.Searched` | controllers/videoController.js:130-133 | exactly the videos whose name or description matches the query |
| `VideoController.VideoGet` | controllers/videoController.js:69-173 | by id: 404 for a missing video, then for a missing playlist, before any 403; the video is returned iff its owner or a profile its playlist lists asks. By playlist: 404, then 403 unless the caller may view the playlist; else exactly its videos. Search: restricted profile first (matching videos of playlists that list it), then admin (matching own videos), else 401. No parameter: admin first (own videos), then restricted profile (videos of playlists that list it), else 401 |
| `VideoController.VideoGetShowsOnlyVisible` | controllers/videoController.js:79-172 | in a consistent store, every video that `GET /videos` returns or lists is stored and belongs to a playlist the caller may view |
| `VideoController.VideoPost` | controllers/videoController.js:10-51 | 401, 422 (no playlist id), 404, 403, 422 (no name or URL), in that order, and no video is stored on any of them; on 201 exactly one video is appended, owned by the caller, who owns its playlist, with description `''` by default; the store stays consistent |
| `VideoController.VideoPatch` | controllers/videoController.js:185-233 | 401, 400, 404, 403; then a new playlist must exist (404) and be the caller's (403), and every refusal leaves the video as it was; on 200 only that video changes: name and URL when given non-empty, description when given, playlist when given, id and `adminId` never |
| `VideoController.VideoDelete` | controllers/videoController.js:251-276 | 401, 400, 404, 403; on 200 exactly that one video is removed and every other stays |
| `PlaylistController.OwnedPlaylists` | controllers/playlistController.js:103 | exactly the playlists whose `adminId` is the admin |
| `PlaylistController.PlaylistsSharedWith` | controllers/playlistController.js:77-79 | exactly the playlists whose `associatedProfiles` lists the profile |
| `PlaylistController.WithCounts` | controllers/playlistController.js:82-88 | one view per playlist, in order, each with the number of videos of that playlist |
| `PlaylistController.Listing` | controllers/playlistController.js:112-120 | a 200 list whose playlists are exactly the given ones, each with its video count |
| `PlaylistController.PlaylistGet` | controllers/playlistController.js:46-121 | by id: 404 before 403; the playlist and its video count iff its owner or a profile it lists asks. By profile id: exactly the playlists listing that profile, with counts, for any caller. No parameter: 401 without a principal; the admin's own playlists, else the playlists listing the restricted profile |
| `PlaylistController.ProfileListingIgnoresPrincipal` | controllers/playlistController.js:76-90 | the `profileId` answer is a 200 list and is the same whoever asks, including nobody |
| `PlaylistController.PlaylistPost` | controllers/playlistController.js:10-34 | 401 without an admin; 422 and nothing saved without a name; on 201 exactly one playlist is appended, owned by the caller, with `associatedProfiles` `[]` by default |
| `PlaylistController.PlaylistPatch` | controllers/playlistController.js:133-165 | 400, 401, 404, 403, in that order; on 200 only that playlist changes: its name when given non-empty, its profile list when given, its id and `adminId` never |
| `PlaylistController.PlaylistDelete` | controllers/playlistController.js:177-205 | 400, 401, 404, 403; on 200 exactly that playlist is removed, with every video of that playlist, and the videos of other playlists stay in order |
| `UserController.Age` | controllers/userController.js:17-23 | the year difference, or one less exactly while this year's birthday has not come |
| `UserController.IsAtLeast18YearsOld` | controllers/userController.js:13-26 | false without a birthdate; otherwise true exactly when today is not before the 18th birthday, in calendar order |
| `UserController.AdultOnEighteenthBirthday` | controllers/userController.js:17-25 | on the exact 18th birthday the rule holds |
| `UserController.NotAdultTheDayBefore` | controllers/userController.js:17-25 | for a birthday after the 1st of a month, the rule fails on the day before the 18th birthday |
| `UserController.NotAdultTheMonthBefore` | controllers/userController.js:17-25 | the rule fails on every day of the month before the 18th birthday's month (December of the year before, for January), so also on the day before a birthday on the 1st |
| `UserController.AdulthoodIsMonotone` | controllers/userController.js:17-25 | for a fixed birthdate, once the rule holds it holds on every later date |
| `UserController.RequiredFieldsPresent` | controllers/userController.js:83 | passes exactly when e-mail, phone, PIN, name and last name are non-empty strings, the birthdate is given and the password's ciphertext is non-empty |
| `UserController.CountryNotRequired` | controllers/userController.js:83 | `country` never changes the outcome of the field test |
| `UserController.EmailRegistered` | controllers/userController.js:85 | exactly when `findOne({ email })` finds a user |
| `UserController.UserPost` | controllers/userController.js:61-123 | under 18 (or no birthdate): 422. Then a missing required field (email, password, phone, pin, name, last name, birthdate; `country` optional): 422. Then an already registered e-mail: 422 "Email already registered". None of these saves anything; otherwise exactly one unconfirmed user (`state == false`) is appended, and e-mails stay unique |
| `RegistrationChain.Catch` | controllers/userController.js:110-116 | the `.catch` answers 422 when nothing was sent yet; otherwise it leaves the responses as they were and ends in an unhandled rejection |
| `RegistrationChain.SecondStep` | controllers/userController.js:98-109 | nothing happens for a falsy value; any truthy value gets one mail; it answers 201 when nothing was sent, and ends unhandled when a response was already out |
| `RegistrationChain.ChainAsWritten` | controllers/userController.js:85-116 | the chain as written: a confirmation mail goes out whatever the first step decided, and the first response is 422 for a registered e-mail, else 201 |
| `RegistrationChain.DuplicateEmailAsWrittenIsUnhandled` | controllers/userController.js:87-104 | as written, a duplicate e-mail is answered 422, then mailed, and the chain ends in an unhandled rejection |
| `RegistrationChain.Chain` | controllers/userController.js:85-116 | the chain as intended: exactly one response (422 for a registered e-mail, else 201), a mail exactly for a new account, nothing unhandled |
| `RegistrationChain.ChainsAgreeOnNewAccounts` | controllers/userController.js:94-108 | for a new e-mail the chain as written and as intended behave the same |
| `UserController.OneAccountPerEmail` | controllers/userController.js:85-96 | in a consistent store two users with the same e-mail are the same user |
| `UserController.ConfirmEmail` | controllers/userController.js:130-146 | 400 without id; 404 for an unknown id; else only that user's `state` becomes true, and confirming again changes nothing |
| `RestrictedUsersController.NameTaken` | controllers/restricted_usersController.js:26 | exactly when `findOne({ full_name })` finds a profile of any admin; a missing name finds none |
| `RestrictedUsersController.RestrictedUsersPost` | controllers/restricted_usersController.js:16-37 | 409 if any profile of any admin has the name; else exactly one profile, owned by the caller, is appended when name, PIN and avatar are all given; otherwise nothing is saved and no response is sent |
| `RestrictedUsersController.OneProfilePerName` | controllers/restricted_usersController.js:26-29 | in a consistent store profile names are unique across all admins |
| `RestrictedUserMiddleware.PinIndex` | middleware/restrictedUserMiddleware.js:19 | the first profile in the store whose PIN is the header, of whichever admin, or none exactly when no profile has it |
| `RestrictedUserMiddleware.AuthenticateRestrictedUser` | middleware/restrictedUserMiddleware.js:6-28 | an admin passes through without `restrictedUserId` being touched; a missing PIN or a PIN of no profile gives 401 and leaves it as it was; else it becomes the first matching profile's id and control passes on; passing on without an admin always sets it, so the handlers are reached only with a principal (`RequestContext.Context()`) |
| `PublicRoutes.Profiles` | routes/publicRoutes.js:10-18 | exactly the restricted profiles whose `AdminId` is the caller |
| `PublicRoutes.OwnedProfileIndex` | routes/publicRoutes.js:38-41 | a profile with that id owned by the caller, or none exactly when there is none |
| `PublicRoutes.VerifyPin` | routes/publicRoutes.js:29-52 | 400 exactly when profile id or PIN is missing, before any lookup; 404 exactly when the caller owns no profile with that id; once it is found, 200 with it when the PIN is its own and 401 otherwise |
| `PublicRoutes.VerifyPinExactly` | routes/publicRoutes.js:38-52 | with unique profile ids, verification succeeds iff the profile is the caller's and the PIN matches; a wrong PIN for the caller's profile gives 401; another admin's profile gives 404 even with the right PIN |

## Findings

| source | as written | input that shows it | evidently intended | confidence | as-written member | corrected member |
|---|---|---|---|---|---|---|
| controllers/userController.js:87-104 | after "Email already registered" the first step returns `res.json(...)`, the response object, and the second step treats it as a saved user | a registration whose e-mail is already registered | the chain stops after the 422: no confirmation mail, no 201 header, no further response | medium, read against Express and Node semantics; not executed | `RegistrationChain.DuplicateEmailAsWrittenIsUnhandled` | `RegistrationChain.Chain` |

In more detail: the second step mails `sendConfirmationEmail(res)`, an address-less mail
(line 101). `res.header(...)` then throws, because the 422 is already sent (line 104).
The `.catch` calls `res.json` and throws again (line 113). Nothing handles that
rejection, and from Node 15 on an unhandled rejection ends the process by default.
`UserController.UserPost` models the corrected chain: the 422 is the only response, and
nothing is saved.

## Left out

- The bearer-token middleware is not part of this model. That covers token issuing and
  checking, revocation, session markers, login, logout and account deletion. `req.user`
  is an input.
- `index.js` is startup wiring (database connection, CORS, body parsing, `listen`).
- Confirmation e-mails (`sendConfirmationEmail`, the mail transporter) are fire-and-forget
  output.
- The password encryption is a foreign library call. It is the parameter `encrypt`,
  applied to the password as sent.
- UserController.UserPost: `repeat_password` is not modelled. The source encrypts it and
  sets it on the saved document (userController.js:65), before the age check. Two things
  are not modelled: whether the User schema keeps the field, and what the cipher does
  with an absent one. If the cipher throws there, every registration without it fails
  before any check, including forms the model answers with 201.
- UserController.UserPost: what the cipher does with an absent password is not modelled.
  The model gives it a ciphertext, which decides the field test as any other: an empty
  ciphertext means 422 "No valid data". The library may instead throw (a 500 or no
  response), or return a non-empty ciphertext that passes line 83.
- RestrictedUsersController.RestrictedUsersPost: it takes the admin as `admin: Id`, so the
  model assumes an authenticated admin. The handler reads `req.user.id` before its `try`
  with no guard. Without an admin it throws there and no response is sent. The route
  wiring that would ensure an admin is not part of this model.
- RestrictedUsersController.NameTaken: a missing `full_name` is modelled as matching no
  profile. What the store does with `findOne({ full_name: undefined })` is not modelled.
- `VideoController.Searched`: a case-insensitive (ASCII letters only) literal substring
  test stands in for Mongo's `$regex` with the user's pattern. It differs from regular
  expression matching: with `$regex`, `a.c` matches "abc" and the literal test does not;
  an invalid pattern such as `(` makes the query fail, while the literal test just
  looks for it.
- Date parsing with `new Date(...)` is not modelled. The birthdate arrives already parsed,
  or absent when it is missing or invalid. The days of a month are not validated.
- UserController.UserPost: a JSON `null` birthdate is modelled as absent, and so refused as
  `Underage`. In the source `new Date(null)` is 1970-01-01: the age test passes, and
  line 83 refuses the form as "No valid data" instead. Either way the answer is 422 and
  nothing is saved; only the refusal's reason differs.
- `Promise.all` over `countDocuments` is a sequential map (`WithCounts`).
- The following are not modelled. Only the status and the result set or saved record are:
  - schema validation errors from the unseen models;
  - ids that are not valid ObjectIds (cast errors);
  - the generic 500 and 422 catch paths;
  - `location` headers and message bodies.
- After "Email already registered", `userPost` continues into its second promise step.
  That step is not inert; see "## Findings". `UserController.UserPost` gives the
  corrected behaviour: the 422 is the only response, and nothing is saved or mailed.
  `RegistrationChain` models the chain as written.
- Concurrency: requests are handled one at a time. Two registrations racing past the
  e-mail check are not modelled.
- The ids the store generates are parameters, required to be fresh in their collection.
  Generating them is not modelled.
