# Railvision back end: authentication, stations and route access

A Dafny model of four parts of the Railvision REST back end:

- **Authentication controller** (`Auth`). Covers the registration schema (the password policy and the field checks), registration into an in-memory user directory, login, the profile lookup `me`, and account activation.
  - The directory is a class holding a sequence of user records.
  - Registration and activation are methods that update it in place.
  - Login and `me` are read-only functions over its records.
- **Station model** (`StationModel`). Covers the `stationDAO` payload schema and the pre-save hook, a method on a document class. When no slug is set, the hook derives one as `name.split(" ").join("-").toLowerCase()`.
- **Station controller** (`StationController`). Covers `findAll` (filter, newest-first sort, skip and page size, count, page count) and `create`.
  - `create` forces `createdBy` to the caller, checks the schema, runs the hook and appends to a station store class.
- **Route table** (`Routes`). Lists every endpoint with its middleware chain, and the decision that chain reaches for a request's credential:
  - no valid token gives Unauthorized (401);
  - a role missing from the route's list gives Forbidden (403);
  - anything else gives Allow.
  - A declarative access table is proved to agree with the chains.

Password encoding (`encrypt`), token signing (`generateToken`), the e-mail syntax test and the text-search predicate are function parameters. Every property therefore holds whatever those functions are. The save time (`now`), the new user's id and the activation code are supplied by the caller.

Points where the code is followed exactly:

- **Password length.** The rule counts UTF-16 code units, as JavaScript's `length` does (`Utf16Length`).
- **Upper-case and digit checks.** The regular expressions `/^(?=.*[A-Z])/` and `/^(?=.*\d)/` only look before the first line terminator, because `.` does not match line terminators. The model checks the same prefix (`FirstLine`).
- **`confirmPassword`.** Its `oneOf([ref("password"), ""])` also allows `""`. That alternative never matters, because `required()` refuses `""` first. As a result an accepted payload always has `confirmPassword == password`.
- **Login lookup.** Login compares the password only against the one active record that `findOne` returns for the identifier (email or username), never against a second match. The model takes that record to be the earliest inserted match; see "Left out" for the store's own choice.
- **`me` and a missing id.** `me` answers 200 with `null` data when no record has the token's id; no error is raised for this case.
- **Activation reply and code reuse.** Activation answers 200 whether or not a code matched. The code is not cleared, so redeeming it again returns the same record and changes nothing (`RedeemTwice`).
- **`findAll` skip.** A negative skip (page below 1 with a positive limit) is refused by the document store, so the listing fails.
- **`findAll` page count.** A limit of 0 makes `count / limit` infinite or NaN, and the page count is serialised as `null`.

## Model

| member | source | states |
|---|---|---|
| Auth.Utf16Length | src/controllers/auth.controller.ts:27 | the length `min(6)` measures is between the character count and twice it, and positive for a non-empty string |
| Auth.FirstLine | src/controllers/auth.controller.ts:33 | the scanned part is the longest prefix containing no line terminator |
| Auth.HasUppercase | src/controllers/auth.controller.ts:33 | definition: the first line holds an ASCII upper-case letter; its use is stated by Auth.PasswordError and Auth.Validate |
| Auth.HasDigit | src/controllers/auth.controller.ts:42 | definition: the first line holds an ASCII digit; its use is stated by Auth.PasswordError and Auth.Validate |
| Auth.PasswordError | src/controllers/auth.controller.ts:25-45 | the password passes exactly when it is at least 6 UTF-16 units long and has an ASCII upper-case letter and a digit on its first line; "required" is reported exactly for the empty password |
| Auth.ConfirmError | src/controllers/auth.controller.ts:46-48 | confirmPassword passes exactly when it is non-empty and equals the password |
| Auth.Validate | src/controllers/auth.controller.ts:21-49 | fail-fast validation accepts exactly the payloads meeting every rule; a short password, one with no upper-case letter, one with no digit, and a confirmation that differs are each rejected; once the earlier fields pass, the reported rule is "Password minimal 6 karakter", "Minimal terdapat 1 huruf kapital", "Minimal terdapat 1 angka" or "Password not match" respectively |
| Auth.FindOne | src/controllers/auth.controller.ts:104-114 | the store lookup returns the first position, in insertion order, satisfying the filter, or nothing exactly when no record satisfies it |
| Auth.Login | src/controllers/auth.controller.ts:101-141 | the reply is either 200 "Login berhasil" or the single 403 "User tidak ditemukan" reply; it is 200 exactly when the earliest inserted active record whose email or username is the identifier has the stored password `encrypt(password)`, and then the token is signed over that record's id and role; success implies an active record whose email or username is the identifier, whose stored password is `encrypt(password)`, and the token is signed over that record's id and role; with no active match, or with a wrong password for every active match, the reply is the 403 one |
| Auth.LoginFindsOnlyMatch | src/controllers/auth.controller.ts:104-141 | when exactly one active record answers to the identifier and the password encodes to its stored password, login returns 200 with a token over that record's id and role |
| Auth.LoginTriesOnlyFirstMatch | src/controllers/auth.controller.ts:104-131 | when the first active match has a wrong password, a later active match with the right one does not log in: the reply is the 403 one |
| Auth.LoginFailuresIndistinguishable | src/controllers/auth.controller.ts:116-131 | an unknown or inactive identifier and a wrong password give the identical reply (403, "User tidak ditemukan", null) |
| Auth.LoginIgnoresInactive | src/controllers/auth.controller.ts:104-114 | adding an inactive record (a fresh registration) never changes what login answers |
| Auth.Me | src/controllers/auth.controller.ts:160-167 | always 200; the data is a record with the token's id when one exists, and null exactly when none has it |
| Auth.RedeemActivationCode | src/controllers/auth.controller.ts:189-199 | the first record with the code becomes active and is returned; every other record, and every other field of that one, is unchanged; with no matching code nothing changes and null is returned |
| Auth.RedeemTwice | src/controllers/auth.controller.ts:189-199 | redeeming a code a second time changes nothing and returns the same record |
| Auth.ActivationEnablesLogin | src/controllers/auth.controller.ts:189-199 | after redeeming the code of the only record answering to an identifier, the correct password logs in as that record |
| Auth.Directory.Register | src/controllers/auth.controller.ts:60-90 | a validation failure gives 400 with that rule's message and stores nothing; a duplicate id, username or email gives 400 and stores nothing; otherwise an inactive USER record with the encoded password is appended and returned with 200; uniqueness is kept |
| Auth.Directory.Activate | src/controllers/auth.controller.ts:187-204 | the directory becomes the redeemed directory and the reply is 200 "Berhasil aktivasi user" with the updated record or null; uniqueness is kept |
| StationModel.MissingField | src/models/station.model.ts:6-21 | the payload is accepted exactly when name, description, icon, category and createdBy are non-empty and location is not `null` (an absent location is cast to the empty object shape and passes); a rejection names a required field, "name" exactly when the name is missing and "location" exactly when every string passes and location is `null` |
| StationModel.OptionalFieldsIgnored | src/models/station.model.ts:11-14 | slug, createdAt and updatedAt never change the verdict |
| StationModel.Split | src/models/station.model.ts:77 | `split(" ")` gives at least one piece and no piece contains the separator |
| StationModel.Join | src/models/station.model.ts:77 | definition of `join("-")`: pieces with the separator between them; JoinSplitReplaces states what it gives after Split |
| StationModel.ReplaceChar | src/models/station.model.ts:77 | the reference replacement keeps the length and swaps exactly the separator positions |
| StationModel.JoinSplitReplaces | src/models/station.model.ts:77 | splitting on a character and joining with another equals replacing every occurrence one for one |
| StationModel.LowerChar | src/models/station.model.ts:77 | upper-case ASCII letters become lower-case; every other character is unchanged |
| StationModel.ToLower | src/models/station.model.ts:77 | lower-casing keeps the length and lowers every character in place |
| StationModel.Slugify | src/models/station.model.ts:77 | definition of `name.split(" ").join("-").toLowerCase()`; SlugifyPointwise and SlugifyIdempotent state its properties |
| StationModel.HookSlug | src/models/station.model.ts:75-80 | definition of the slug the hook leaves: the derived one when unset, the given one otherwise; HookKeepsSetSlug, HookIdempotent and HookDerivesSpaceFreeSlug state its properties |
| StationModel.SlugifyPointwise | src/models/station.model.ts:77 | the derived slug has the name's length; each space becomes `-` (so consecutive spaces give consecutive hyphens) and each letter is lower-cased; no space remains |
| StationModel.SlugifyIdempotent | src/models/station.model.ts:77 | deriving a slug from a derived slug gives it back unchanged |
| StationModel.HookKeepsSetSlug | src/models/station.model.ts:75-76 | a slug that is already set is left as it is |
| StationModel.HookIdempotent | src/models/station.model.ts:75-80 | running the hook twice gives the slug one run gives |
| StationModel.HookDerivesSpaceFreeSlug | src/models/station.model.ts:75-78 | an unset slug with a non-empty name becomes a non-empty slug with no space |
| StationModel.StationDocument.constructor | src/controllers/station.controller.ts:12 | the document holds the accepted payload's fields, an absent slug as unset, the body's location (none when the body has none), and the save time |
| StationModel.StationDocument.PreSave | src/models/station.model.ts:75-80 | only `slug` may change, and it becomes the hook's slug for the old slug and the name |
| StationController.FilterOf | src/controllers/station.controller.ts:26-35 | a text-search condition is added exactly when `search` is present and non-empty, with the given terms |
| StationController.Matching | src/controllers/station.controller.ts:37 | the matched stations are exactly the stored ones the filter admits, and all of them when there is no filter |
| StationController.MatchingCounts | src/controllers/station.controller.ts:37-42 | the matches hold every copy of each admitted station and none of a refused one, so their number is what `countDocuments` counts |
| StationController.Insert | src/controllers/station.controller.ts:40 | inserting into a newest-first list keeps it newest first and adds exactly that station |
| StationController.SortNewestFirst | src/controllers/station.controller.ts:40 | the ordering is by createdAt descending and is a permutation of the matched stations |
| StationController.CeilDiv | src/controllers/station.controller.ts:50 | `Math.ceil(a / b)`: for a positive divisor the least q with a <= q*b, for a negative one the corresponding bound |
| StationController.Skip | src/controllers/station.controller.ts:39 | `(page - 1) * limit` is not negative for page >= 1 and limit >= 0, and is 0 on page 1 |
| StationController.LimitOf | src/controllers/station.controller.ts:20-24 | definition: the query limit, 10 when absent; FindAll states the defaults |
| StationController.PageOf | src/controllers/station.controller.ts:20-24 | definition: the query page, 1 when absent; FindAll states the defaults |
| StationController.TotalPages | src/controllers/station.controller.ts:50 | the page count is null exactly for limit 0; for a positive limit it is the ceiling of count / limit |
| StationController.Window | src/controllers/station.controller.ts:37-41 | the returned positions lie within the list, number at most the page size, start at the skip when it is in range, and are a full page when enough remain |
| StationController.ListWith | src/controllers/station.controller.ts:37-50 | the query fails exactly for a negative skip; otherwise the items are the window of the newest-first matches, sorted, matching the filter and stored; current is the page, total the match count, totalPages its ceiling over the limit |
| StationController.FindAll | src/controllers/station.controller.ts:20-50 | a page holds at most 10 stations whatever the limit, newest first; current is the page and total the count of all matches; with no search the total is the whole store; with no limit and page the defaults 10 and 1 apply |
| StationController.TotalIndependentOfPage | src/controllers/station.controller.ts:42-50 | total and totalPages are the same on every page |
| StationController.FixedPageSizeHidesStations | src/controllers/station.controller.ts:38-39 | as written, with a limit above 10 and more than 10 matches, sorted position 10 lies on no page |
| StationController.StoreLimit | src/controllers/station.controller.ts:38 | a positive query limit is the number the store returns at most |
| StationController.FindAllIntended | src/controllers/station.controller.ts:37-41 | with the page size taken from limit, a page holds at most limit stations, newest first, and total is the match count |
| StationController.PageHolds | src/controllers/station.controller.ts:39 | with page size equal to the limit, position i is on page p exactly when p is i / limit + 1 |
| StationController.HomeWithinTotal | src/controllers/station.controller.ts:50 | the page holding position i is between 1 and the page count |
| StationController.IntendedPagesPartition | src/controllers/station.controller.ts:37-50 | in the corrected listing every matched position lies on exactly one page, page i / limit + 1, and that page exists and is within totalPages |
| StationController.CreatePayload | src/controllers/station.controller.ts:10 | createdBy is the caller's id, overriding the body's, and every other field is the body's |
| StationController.StationStore.Create | src/controllers/station.controller.ts:8-17 | a payload missing a required field is rejected with that field's message and nothing is stored; otherwise (an absent location included) the station with the caller as creator, the hook's slug and the body's location, or none, is appended and returned |
| Routes.Run | src/routes/api.ts:19-22 | a chain allows exactly when every guard passes; Unauthorized only comes from an authentication guard with no verified identity |
| Routes.Endpoint | src/routes/api.ts:14-270 | definition: the method and path of each route; EndpointsDistinct states that no two share one |
| Routes.Chain | src/routes/api.ts:14-270 | definition: the middleware chain each route declares; AuthenticateComesFirst and ChainsImplementAccess state its properties |
| Routes.Decide | src/routes/api.ts:14-270 | definition: an endpoint's decision is its chain run on the credential; ChainsImplementAccess states that it equals the access table's |
| Routes.Grant | src/routes/api.ts:21 | a public route always allows; a protected route with no verified identity is Unauthorized; a role list allows exactly the roles it names |
| Routes.AuthenticateComesFirst | src/routes/api.ts:16-256 | every non-empty chain starts with authentication, and every role check comes after it |
| Routes.ChainsImplementAccess | src/routes/api.ts:14-270 | for every endpoint and credential the middleware chain decides what the declarative access table says |
| Routes.UnverifiedIsUnauthorized | src/routes/api.ts:19-22 | without a valid token every protected endpoint answers Unauthorized, never Forbidden |
| Routes.AdminNeverForbidden | src/routes/api.ts:19-257 | a verified ADMIN is allowed on every endpoint |
| Routes.AdminOnlyWrites | src/routes/api.ts:19-137 | category and station create, update and delete take [ADMIN]: a verified USER is Forbidden and no token is Unauthorized |
| Routes.MediaForAnyRole | src/routes/api.ts:189-257 | the three media endpoints take [ADMIN, USER]: any verified identity is allowed, and none is Unauthorized |
| Routes.AuthEndpoints | src/routes/api.ts:14-17 | `/auth/me` needs a valid token and no role; register, login and activation are public |
| Routes.ReadsArePublic | src/routes/api.ts:36-187 | every GET endpoint other than `/auth/me` is public |
| Routes.NoRoleHierarchy | src/routes/api.ts:189-194 | role membership is flat: ADMIN is Forbidden on a [USER] list and USER on an [ADMIN] list |
| Routes.OrderDecidesRefusal | src/routes/api.ts:21 | authentication before the role check answers Unauthorized for a missing token; a hypothetical chain with the role check first, declared by no route, would answer Forbidden |
| Routes.EndpointsDistinct | src/routes/api.ts:14-270 | no two endpoints share a method and path |

## Findings

| source | as written | input that shows it | evidently intended | confidence | as-written member | corrected member |
|---|---|---|---|---|---|---|
| src/controllers/station.controller.ts:38-39 | the page size is fixed at `.limit(10)`, while the skip `(page - 1) * limit` and `totalPages` use the query's `limit` | `limit=20` with more than 10 matches: page 1 shows positions 0-9 and page 2 starts at 20, so positions 10-19 are never listed (with `limit=5` pages overlap instead) | `.limit(limit)`, so that the pages partition the matches | high, not executed | StationController.FindAll, StationController.FixedPageSizeHidesStations | StationController.FindAllIntended, StationController.IntendedPagesPartition |

## Left out

- **Token verification.** The bearer-token verification (`utils/jwt`) and the bodies of the auth and ACL middlewares are not part of this model. The request's credential is an input: no token, a token that fails verification, or verified claims. So the sign/verify round trip and token expiry are not modelled.
- **Password encoding.** `encrypt` (`utils/encryption`) is not part of this model; it is a parameter.
- **E-mail syntax.** The e-mail syntax of the validation library is a parameter.
- **User model.** `models/user.model.ts` is not part of this model. Registration is assumed to store `encrypt(password)`, role USER, `isActive` false, and an activation code supplied by the caller. A duplicate id, username or email gives 400 with a stand-in for the store's duplicate-key message.
- **Profile picture and timestamps.** The user record's profile picture and timestamps are not modelled; no operation here reads them.
- **Validation order.** When several fields fail, the reported rule follows the schema's declaration order. The library's own field-scheduling order and its coercion of non-string inputs are not modelled. An absent registration field is the empty string, which `required()` treats the same way. The validation library's default messages are used for required and e-mail failures.
- **Unexpected errors.** The catch-all 400 for unexpected errors (a store failure, an exception in `encrypt`) is not modelled. Its message is whatever the runtime error says.
- **Concurrency and async.** Concurrency, `async`/`await`, and the atomicity of `findOneAndUpdate` are not modelled. Every handler is one sequential step.
- **Which match `findOne` returns.** When several records satisfy a lookup (login's email-or-username filter, activation's code), the store picks the one it returns; natural order is not promised to be insertion order, and a query over two indexes may return either match first. The model takes the earliest inserted match. Auth.Login and Auth.LoginTriesOnlyFirstMatch are stated for that choice.
- **Location defaults.** The document schema declares `coordinates` with default `[0, 0]`. Whether the store applies that default, for an absent location or for a location without coordinates, depends on how the library version treats a `type: {…}` path. The model stores the body's location as given, or none when absent.
- **Store semantics.** Document-store specifics are not modelled: ObjectId generation and casting, `$text` search semantics (a parameter), `populate`, and `timestamps`. The creation time is the `now` parameter and the model ignores a `createdAt` in the body. The schema lets the body carry one, and the store fills `createdAt` only when it is unset, so the store may keep the body's value; `findAll` then sorts on it.
- **Station uniqueness.** The unique index on the station slug is not modelled, so two stations may share a slug.
- **Sort ties.** Stations with equal `createdAt` are ordered somehow by the store. The model proves only that the order is newest first and a permutation; the order among ties is whatever the insertion sort gives.
- **Query-string coercion.** Coercion of `limit` and `page` from strings is not modelled; they are integers. `Math.ceil` over a floating-point quotient is integer ceiling division.
- StationModel.LowerChar: lowers only ASCII letters. `toLowerCase` also lowers other Unicode letters (and can change a string's length), which the model does not capture.
- **Other station handlers.** `findOne`, `findOneBySlug`, `update` and `remove` of the station controller are not modelled. They pass their input straight to the store.
- **Handlers behind routes.** The category, region and media controllers are not modelled, and neither is the multipart parser (listed in the route chains as a guard that refuses nothing).
- **URL matching.** Express path matching and parameter extraction (`:id`, `:slug`) are not modelled. A request is identified by its endpoint.
- **API docs.** The API documentation generator has no logic and is not modelled.
