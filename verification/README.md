# TrailSync backend core in Dafny

A model of the core of the TrailSync web backend (TypeScript, Express,
Mongoose), with proofs about it. The core covers:

- **Auth controller.** `register`, `login` and `refreshToken` issue JWT
  access/refresh pairs. They keep each user's list of live refresh tokens
  in the `User` collection: pushing on login, rotating on refresh, and
  emptying the list when a token is reused.
- **Auth middleware.** `authenticate` is the `Bearer` header gate in front
  of protected routes.
- **Upload helpers.** The image-type filter, the stored file names, the
  renaming of placeholder post uploads, and backslash normalisation.
- **Schemas.** The user and post Mongoose schemas, read as validity
  predicates.

Each request handler is a pure transition. It takes the configuration, the
request, an environment and the user store. It returns the HTTP response
and the store after the request.

- The environment holds the clock second, the bcrypt salt, the `_id` a new
  document gets, and where (if anywhere) a collaborator throws.
- The store is the `User` collection as a sequence in natural order.

JWTs are abstract values: a signed token records its claims, secret, issue
second and expiry second. HS256 signing is deterministic, so token
equality is string equality. bcrypt is an abstract salted digest.

Modules, one per file:

| file | module | models |
|---|---|---|
| `wrappers.dfy` | `Wrappers` | `Option` and `Result` |
| `js_strings.dfy` | `JsStrings` | JavaScript string operations the core uses |
| `jwt.dfy` | `Jwt` | `jwt.sign` and `jwt.verify` |
| `password_hash.dfy` | `PasswordHash` | `bcrypt.hash` and `bcrypt.compare` |
| `user_model.dfy` | `UserModel` | user schema, lookups, create and save |
| `auth_controller.dfy` | `AuthController` | the three handlers |
| `session_properties.dfy` | `SessionProperties` | properties across requests and store invariants |
| `auth_middleware.dfy` | `AuthMiddleware` | `authenticate` |
| `photo_upload.dfy` | `PhotoUpload` | upload helpers |
| `post_model.dfy` | `PostModel` | post schema validation |

Notes on the code as written:

- Only `register`, `login` and `refreshToken` are exported by the
  controller. There is no logout handler in it.
- The 400 "Login failed" comes from `sendError`'s default code.
- The middleware attaches `decoded._id`, which the controller's tokens do
  not carry. This is a finding; see "## Findings".
- The profile upload is named from `req.userId`, which is never set. This
  is a finding too.

## Model

| member | source | states |
|---|---|---|
| AuthController.LoadConfig | src/controllers/authController.ts:17-19 | The secret is taken as given; an unset lifetime falls back to 3600 s (access) or 86400 s (refresh), and a set one is used as is |
| AuthController.SigningSecret | src/controllers/authController.ts:17-25 | Signing is possible exactly when `JWT_SECRET` is set and non-empty, and then uses that secret |
| AuthController.GenerateToken | src/controllers/authController.ts:21-28 | Both tokens carry only `userId`, the same secret and issue second, and their own lifetimes; the two are the same string exactly when the lifetimes are equal |
| AuthController.SendError | src/controllers/authController.ts:7-10 | The body is `{ error: message }`; an absent or zero code gives 400, a given non-zero code is used |
| AuthController.Register | src/controllers/authController.ts:30-46 | Success is 201 with the pair `generateToken` makes for the new `_id` under the configured secret, and the new user appended under that `_id`, holding exactly the returned refresh token. Every failure is 401 "Registration failed", with the store either unchanged or holding the new user with no tokens. The store invariant is preserved |
| AuthController.Login | src/controllers/authController.ts:48-71 | "Email and password are required" (400, nothing changed) is returned exactly when a field is missing or empty. Otherwise the status is 200, 400 or 401, and only 200 changes the store. 401 is always "Invalid email or password" and 400 otherwise "Login failed". A known email with the matching password, no throw and a configured secret is 200. On 200 the body is the pair `generateToken` makes for the found user's `_id`, and that user's list gains exactly the new refresh token. The store invariant is preserved |
| AuthController.RemoveAll | src/controllers/authController.ts:98-100 | The filter removes every copy of the token, keeps every other element with its multiplicity, and leaves a list without the token unchanged |
| AuthController.RemoveAllConcat | src/controllers/authController.ts:98-100 | Filtering a concatenation filters each part and keeps their order, so the result is the other elements in their original order |
| AuthController.RefreshToken | src/controllers/authController.ts:73-107 | 400 is returned only for a missing (or empty) token and changes nothing. Any other non-200 is 401 "Invalid refresh token"; it changes the store only by emptying the list of a found user whose list lacks the verified token. 200 needs a throw-free request and a verified token held by its user; the body is the pair `generateToken` makes for that user's `_id`, and the list becomes old plus new with the presented token filtered out. The store invariant is preserved |
| AuthMiddleware.GateSecret | src/middlewares/authMiddleware.ts:22 | The middleware always has a non-empty secret: `JWT_SECRET` when set and non-empty, otherwise `default_secret` |
| AuthMiddleware.GateAgreesWithController | src/middlewares/authMiddleware.ts:22 | Whenever the controller can sign, the middleware verifies with the very same secret |
| AuthMiddleware.DefaultSecretAdmitsAnyone | src/middlewares/authMiddleware.ts:22-28 | With `JWT_SECRET` unset or empty the controller can issue nothing, yet the middleware admits any unexpired token signed with the public `default_secret` |
| AuthMiddleware.BearerToken | src/middlewares/authMiddleware.ts:10-20 | A token is extracted only from a header that starts with `Bearer `; it is non-empty, space-free, and a prefix of what follows `Bearer ` |
| AuthMiddleware.FirstFieldIsPrefix | src/middlewares/authMiddleware.ts:16 | The first field of a space split is a prefix of the string |
| AuthMiddleware.Authenticate | src/middlewares/authMiddleware.ts:9-33 | As written: `next()` happens exactly when a token is extracted and verifies under the gate secret, and `req.user` then gets the `_id` claim. Every rejection is the same 401 `Unauthorized` |
| AuthMiddleware.AuthenticateIntended | src/middlewares/authMiddleware.ts:24-28 | Same gate and same acceptance, but the attached identity is the `userId` claim |
| AuthMiddleware.BearerTokenIff | src/middlewares/authMiddleware.ts:12-20 | The gate passes a header exactly when it starts with `Bearer ` and a non-space character follows |
| AuthMiddleware.BearerTokenIsSecondField | src/middlewares/authMiddleware.ts:16 | The token is the second space-separated field, so `Bearer a b` yields `a` |
| AuthMiddleware.BearerTokenAlone | src/middlewares/authMiddleware.ts:16 | `Bearer t`, for a non-empty space-free `t`, yields `t` |
| AuthMiddleware.BearerTokenBeforeSpace | src/middlewares/authMiddleware.ts:16 | `Bearer t rest` yields `t`, not `t rest` |
| AuthMiddleware.MalformedHeadersRejected | src/middlewares/authMiddleware.ts:12-20 | A missing header, a wrong scheme, `Bearer ` alone, and a double space are all 401 `Unauthorized` |
| AuthMiddleware.ControllerTokenAttachesNoIdentity | src/middlewares/authMiddleware.ts:24-28 | A live access token from the controller passes the gate, but the attached identity is undefined |
| AuthMiddleware.ControllerTokenResolvesToUser | src/middlewares/authMiddleware.ts:24-28 | With the intended claim, that token resolves to the user it was issued for |
| Jwt.Sign | src/controllers/authController.ts:22-25 | Signing always yields a well-formed token |
| Jwt.Verify | src/controllers/authController.ts:81 | Only a well-formed token verifies |
| Jwt.SignThenVerify | src/controllers/authController.ts:81 | A signed token verifies under its own secret exactly until it expires, and under no other secret |
| Jwt.SignInjective | src/controllers/authController.ts:22-25 | Two signatures give the same token exactly when claims, secret, issue second and lifetime agree |
| PasswordHash.HashPassword | src/controllers/authController.ts:34-35 | The digest is made under the drawn salt |
| PasswordHash.CompareAcceptsOnlyHashedPassword | src/controllers/authController.ts:58 | A digest accepts exactly the password it was made from, whatever the salt |
| JsStrings.ToLower | src/utilities/photoUpload.ts:43 | Lower-casing keeps the length, yields a lower-case string, and leaves a lower-case string unchanged |
| JsStrings.IndexOf | src/utilities/photoUpload.ts:80 | Returns the first index where the pattern occurs, or none when it occurs nowhere |
| JsStrings.Includes | src/utilities/photoUpload.ts:42-44 | A pattern is included exactly when it occurs at some index |
| JsStrings.ReplaceFirst | src/utilities/photoUpload.ts:80 | Only the first occurrence is replaced, with the text before and after it kept; a string without the pattern is returned unchanged |
| JsStrings.Split | src/middlewares/authMiddleware.ts:16 | The split has at least one field, no field contains the separator, and joining the fields gives back the string |
| JsStrings.SplitWithoutSeparator | src/middlewares/authMiddleware.ts:16 | A string without the separator splits into itself alone |
| JsStrings.SplitAtFirstSeparator | src/middlewares/authMiddleware.ts:16 | The first field is everything before the first separator, and the remaining fields split the rest |
| JsStrings.SplitJoin | src/middlewares/authMiddleware.ts:16 | Round trip: splitting a join of separator-free fields gives back the fields |
| UserModel.FindFirst | src/controllers/authController.ts:56 | Returns the first document that matches, or none when none does |
| UserModel.FindById | src/controllers/authController.ts:82 | Returns the first document with the `_id`, or none exactly when no document has it |
| UserModel.FindByEmail | src/controllers/authController.ts:56 | Returns the first document with the email, or none exactly when no document has it |
| UserModel.FindFindsOwnDocument | src/model/userModel.ts:5-10 | In a valid store (unique email, distinct `_id`), looking up a document's own `_id` or email finds that document |
| UserModel.Create | src/model/userModel.ts:3-29 | Creation succeeds exactly when email and username are non-empty and neither the `_id` nor the lower-cased email is taken; otherwise a duplicate key is reported for valid fields. The new document has a lower-cased email, no profile picture and an empty token list, and the store invariant is preserved |
| UserModel.SetRefreshTokens | src/model/userModel.ts:22-25 | Saving a new token list changes that field of that document only, and preserves the store invariant |
| UserModel.LookupsIgnoreRefreshTokens | src/controllers/authController.ts:88-101 | Replacing a token list changes the result of no lookup by `_id` or email |
| SessionProperties.RegisterSucceedsIff | src/controllers/authController.ts:30-46 | Registration is 201 exactly when nothing throws, a password is given, email and username are non-empty, neither the `_id` nor the lower-cased email is taken, and a secret is configured |
| SessionProperties.RegisterDuplicateEmail | src/controllers/authController.ts:36-44 | A duplicate email, after lower-casing, is 401 "Registration failed" with the store unchanged |
| SessionProperties.RegisteredTokenRefreshes | src/controllers/authController.ts:37-42 | The returned refresh token is the new user's whole list, and it refreshes with 200 while unexpired |
| SessionProperties.LoginRejectsUnknownAndWrongAlike | src/controllers/authController.ts:56-60 | An unknown email and a wrong password give the identical 401 response and change nothing |
| SessionProperties.LoginSucceedsIff | src/controllers/authController.ts:48-67 | Login is 200 exactly when both fields are given, nothing throws, a secret is configured, the lower-cased email is found and the password matches its digest; the body is then the pair issued for that user's `_id` |
| SessionProperties.LoginThrowIsBadRequest | src/controllers/authController.ts:55-70 | Every throw after the field check is 400 "Login failed" and changes nothing: a failing lookup, and, for a matching password, a failing save or a missing secret in `generateToken` |
| SessionProperties.LoginAppendsOneToken | src/controllers/authController.ts:62-67 | A successful login appends exactly one token, keeps the earlier ones in order, and touches no other user |
| SessionProperties.SameSecondLoginsStoreDuplicates | src/controllers/authController.ts:62-65 | Two logins in the same second get the same pair, and the list holds that token twice |
| SessionProperties.RefreshUnverifiedChangesNothing | src/controllers/authController.ts:104-106 | A token that does not verify is 401 with the store unchanged |
| SessionProperties.RefreshUnknownUserChangesNothing | src/controllers/authController.ts:82-86 | A verified token naming no stored user is 401 with the store unchanged |
| SessionProperties.RefreshThrowIsUnauthorized | src/controllers/authController.ts:80-106 | Any throw once a token is presented (the lookup or either `save()`) is 401 "Invalid refresh token" with the store unchanged, so a failed save during reuse detection revokes nothing |
| SessionProperties.ReuseRevokesAllSessions | src/controllers/authController.ts:88-93 | A verified token missing from its user's list empties that whole list and is 401 |
| SessionProperties.RotationKeepsOtherTokens | src/controllers/authController.ts:95-103 | Rotation is 200 with the issued pair. Every copy of the presented token leaves the list, the new refresh token joins it, and every other token keeps its multiplicity |
| SessionProperties.SameSecondRefreshDropsFreshToken | src/controllers/authController.ts:95-101 | When rotation issues the very token presented, the filter drops it, so the 200 response hands out a token the store lacks, and presenting it later revokes every session |
| SessionProperties.ReplayRevokesRotatedSession | src/tests/auth.test.ts:92-112 | After a rotation, replaying the old token is 401 and empties the list, and the token issued by the rotation is then 401 too |
| SessionProperties.RevokedOwnerRefreshFails | src/controllers/authController.ts:88-93 | Once a user's list is empty, no token naming that user refreshes |
| SessionProperties.AccessTokenAtRefreshRevokes | src/controllers/authController.ts:88-93 | An access token presented for refresh (the lifetimes differing) is never in the list, so it revokes every session of its user |
| SessionProperties.RegisterKeepsTokensOwned | src/controllers/authController.ts:37-40 | Registration keeps the invariant that every stored refresh token was issued for its owner |
| SessionProperties.LoginKeepsTokensOwned | src/controllers/authController.ts:62-65 | Login keeps that invariant |
| SessionProperties.RefreshKeepsTokensOwned | src/controllers/authController.ts:88-101 | Refresh keeps that invariant, both on reuse and on rotation |
| PhotoUpload.NormalizeFilePath | src/utilities/photoUpload.ts:75 | Every backslash becomes `/`, every other character is kept, and the length is unchanged |
| PhotoUpload.NormalizeIdempotent | src/utilities/photoUpload.ts:75 | Normalising twice is normalising once |
| PhotoUpload.NormalizeFixesClean | src/utilities/photoUpload.ts:75 | A path without backslashes is already normal |
| PhotoUpload.NormalizeConcat | src/utilities/photoUpload.ts:75 | Normalisation distributes over concatenation |
| PhotoUpload.LastIndexOf | src/utilities/photoUpload.ts:79 | Returns the last index of the character, or none exactly when it is absent |
| PhotoUpload.BaseName | src/utilities/photoUpload.ts:79 | The base name is the part of the path, trailing slashes removed, after its last `/`: a slash-free suffix that is the whole trimmed path or is preceded by a `/` |
| PhotoUpload.ExtName | src/utilities/photoUpload.ts:43 | The extension is empty or a `.`-led, slash-free proper suffix of the base name holding no further `.`; a base name without `.` has none |
| PhotoUpload.ExtNameEmptyIff | src/utilities/photoUpload.ts:43 | The extension is empty exactly when the base name is `..` or has no `.` after its first character |
| PhotoUpload.ImageFilter | src/utilities/photoUpload.ts:37-51 | Rejection always carries "File type not allowed"; acceptance needs a non-empty extension |
| PhotoUpload.EmptyMatchesNothing | src/utilities/photoUpload.ts:42-44 | The filter's pattern matches nothing in the empty string |
| PhotoUpload.ImageFilterIff | src/utilities/photoUpload.ts:42-47 | Acceptance holds exactly when the lower-cased extension and the mimetype both contain an allowed type |
| PhotoUpload.ExtNameOfSimpleName | src/utilities/photoUpload.ts:43 | The extension of `stem.ext` is `.ext` |
| PhotoUpload.ExtensionOfSimpleBase | src/utilities/photoUpload.ts:43 | The extension of a slash-free `stem.ext` is `.ext` |
| PhotoUpload.BaseNameOfSegment | src/utilities/photoUpload.ts:79 | A non-empty name without `/` is its own base name |
| PhotoUpload.DotFileRejected | src/utilities/photoUpload.ts:43-49 | A dot-file name such as `.png` has no extension and is rejected whatever its mimetype |
| PhotoUpload.ExtensionCaseIgnored | src/utilities/photoUpload.ts:43 | Names whose extensions agree once lower-cased get the same verdict |
| PhotoUpload.MimetypeCaseMatters | src/utilities/photoUpload.ts:44 | `image/png` matches and `image/PNG` does not: the mimetype is not lower-cased |
| PhotoUpload.ProfileFileName | src/utilities/photoUpload.ts:21-23 | The name is `${userId}-${originalname}`, with an absent id rendered as `undefined` |
| PhotoUpload.ProfileUploadName | src/utilities/photoUpload.ts:21-23 | As written, the stored name of a profile upload is `undefined-${originalname}` whoever uploads it, because `req.userId` is never assigned |
| PhotoUpload.ProfileUploadsCollide | src/utilities/photoUpload.ts:21-23 | Any two uploads of the same file name, by any owners, get the same stored name |
| PhotoUpload.ProfileUploadNameIntended | src/utilities/photoUpload.ts:21-23 | The intended name is the template filled with the owner's id |
| PhotoUpload.ProfileFileNameInjective | src/utilities/photoUpload.ts:21-23 | With the name made from the owner's id, as intended, and ids without `-` (such as ObjectId strings), the stored name determines both the owner and the uploaded name, so two users' uploads do not collide |
| PhotoUpload.FirstDashEndsId | src/utilities/photoUpload.ts:21-23 | The first `-` of a profile file name is the one right after the id |
| PhotoUpload.PostFileName | src/utilities/photoUpload.ts:30-34 | The name is `${id}-${originalname}`, with `new` used for a missing or empty route id |
| PhotoUpload.RenamePath | src/utilities/photoUpload.ts:78-87 | The renamed path holds no backslash. It is the normalised directory, `/`, and the normalised base name with its first `new` replaced by the post id; a base name without `new` gives the normalised old path |
| PhotoUpload.RenameSplits | src/utilities/photoUpload.ts:81-87 | Normalising `dir/name` normalises the two sides of the `/` separately |
| PhotoUpload.RenameKeepsDirectory | src/utilities/photoUpload.ts:79-81 | Renaming keeps the directory and rewrites only the base name |
| PhotoUpload.LastSlashSplits | src/utilities/photoUpload.ts:79-81 | `dir/base` splits at its last `/` into `dir` and `base` |
| PhotoUpload.RenameWithoutPlaceholder | src/utilities/photoUpload.ts:80 | A base name without `new` comes back unchanged |
| PhotoUpload.RenamePlaceholderUpload | src/tests/posts.test.ts:84 | A placeholder upload `new-X` is renamed to the name the upload would have had with the post id known, `${postId}-X` |
| PhotoUpload.PlaceholderRenamed | src/utilities/photoUpload.ts:32-33 | In a placeholder file name, the first `new` is the placeholder itself |
| PhotoUpload.RenamePostFiles | src/utilities/photoUpload.ts:77-89 | One renamed path per input, in order, none containing a backslash |
| PostModel.Violations | src/model/postModel.ts:3-50 | A submission has no violations exactly when every required field is present (strings non-empty) and both prices are at least 0 |
| PostModel.Validate | src/model/postModel.ts:3-54 | A post is stored exactly when there are no violations, otherwise all violations are reported. A stored post is well formed, carries the submitted values, and has `photos` defaulting to empty |
| PostModel.MissingStringsReported | src/model/postModel.ts:10-36 | A missing or empty `title` or `location.city` is reported as required |
| PostModel.MissingValuesReported | src/model/postModel.ts:5-22 | A missing `user` or `minPrice` is reported as required |
| PostModel.NegativePricesReported | src/model/postModel.ts:18-27 | A negative price is reported as below its minimum |
| PostModel.DaysHaveNoMinimum | src/model/postModel.ts:28-31 | `numberOfDays` has no minimum |
| PostModel.WellFormedPostValidates | src/model/postModel.ts:3-50 | Round trip: every well-formed post validates back to itself |
| PostModel.PriceOrderNotChecked | src/model/postModel.ts:18-27 | A minimum price above the maximum price is accepted |
| PostModel.PhotosDefaultEmpty | src/model/postModel.ts:46-49 | Omitting `photos` stores the empty list |

## Left out

- Cryptography is abstract. Token strings, HMAC and bcrypt internals, including bcrypt's 72-byte password truncation, are not modelled. A token is its claims, secret and times.
- The JWT compact serialisation is not modelled. The middleware takes a `decode` parameter from header text to token.
- Express, HTTP transport, JSON parsing and type coercion are not modelled. Request fields are optional strings; non-string JSON values and NoSQL-operator objects in `email` are out of scope.
- Concurrency and interleaving of requests are out of scope. Each request is atomic over the store.
- Timestamps (`createdAt`, `updatedAt`) are not modelled.
- `iat` and `exp` are whole seconds from the clock parameter. If the two `jwt.sign` calls in `generateToken` straddle a second boundary, the pair gets different issue seconds; that is not modelled.
- The login query is modelled with the email already lower-cased, as the schema's `lowercase` setter applies to query values.
- Lower-casing is ASCII only. Unicode case mapping is not modelled.
- Token lifetimes come from `parseInt`. A `NaN` or partially numeric value is not modelled; the configuration holds the parsed integer.
- `register` ignores `profilePicture`. The model leaves it unset.
- `UserModel.Create` does not model Mongoose's cast errors for non-string values.
- `PostModel.Validate` treats a number as present or absent. Cast failures and `NaN` are not modelled.
- Post and comment controllers, routes, the base controller, the swagger setup and the database connection are not part of this model. The ownership checks and 403 responses they perform are not part of this model either.
- The upload side effects are not modelled: `multer` storage, file-size limits, directory creation, `fs.existsSync`, `fs.renameSync` and `deleteFile`/`deleteFiles`. Renaming is modelled as the returned path list only.
- PhotoUpload.RenamePath: splits at the last `/` and rejoins with `/`. It does not model `path.join` and `path.dirname` normalisation of `.`, `..`, repeated or trailing slashes, or Windows separators.
- JsStrings.ReplaceFirst: does not interpret `$` patterns in the replacement string. A post id is a hexadecimal ObjectId string, so it holds none.
- Mongoose's `required` for strings is modelled as present and non-empty, and for `ObjectId` and `Number` as present.

## Findings

| source | as written | input that shows it | evidently intended | confidence | as-written member | corrected member |
|---|---|---|---|---|---|---|
| src/middlewares/authMiddleware.ts:24-26 | The middleware sets `req.user = { _id: decoded._id }`, but the controller's tokens carry only `userId` | Any live access token from `login`, sent as `Authorization: Bearer <token>`: the request passes the gate with `req.user._id` undefined | Attach the `userId` claim, so the request carries the identity of the user the token was issued for | high (follows from the two sign/read sites), not executed | AuthMiddleware.Authenticate (shown by AuthMiddleware.ControllerTokenAttachesNoIdentity) | AuthMiddleware.AuthenticateIntended (proved by AuthMiddleware.ControllerTokenResolvesToUser) |
| src/utilities/photoUpload.ts:21-23 | The profile file name is built from `req.userId`, which nothing assigns: `AuthRequest` has only `user` (src/middlewares/authMiddleware.ts:5), and src/routes/authRoutes.ts:6 runs the upload before any user exists | Two users each uploading `me.png` are both stored as `uploads/profiles/undefined-me.png`, the later overwriting the earlier | Name the file after the owning user's id | high (the middleware sets only `req.user`, and no route or controller sets `req.userId`), not executed | PhotoUpload.ProfileUploadName (shown by PhotoUpload.ProfileUploadsCollide) | PhotoUpload.ProfileUploadNameIntended (proved by PhotoUpload.ProfileFileNameInjective) |
