# User model of a task-manager backend, in Dafny

This project models the user document of a task-manager REST backend
(`api/db/models/user.model.js`): the Mongoose schema's field constraints, the
`toJSON` projection that hides secrets, the pre-save hook that re-hashes a
modified password, the refresh-session ledger (`createSession`,
`saveSessionToDatabase`, `generateRefreshTokenExpiryTime`,
`hasRefreshTokenExpired`), the shape of a refresh token (the lowercase hex of
64 random bytes) and the credential lookup `findByCredentials`.

Modules, one per concern:

- `Wrappers` (`wrappers.dfy`): `Option`, and `Settled`, the fate of a promise
  (resolved, rejected with an optional reason, or never settled).
- `Hex` (`hex.dfy`): `Buffer.toString("hex")` and its inverse.
- `Text` (`text.dfy`): `String.prototype.trim`, which the schema's `trim`
  option applies to the email.
- `Expiry` (`expiry.dfy`): the ten-day expiry and the strict expiry test. The
  clock is a parameter `nowMs`, the whole milliseconds `Date.now()` returns;
  seconds are `nowMs / 1000` as an exact real number.
- `Schema` (`schema.dfy`): Mongoose validation of a document whose fields may
  be absent; a `required` string must be present and non-empty.
- `Projection` (`projection.dfy`): `_.omit` and `toJSON` on plain objects.
- `RefreshToken` (`refresh_token.dfy`): `generateRefreshAuthToken`, with the
  random source as a parameter.
- `UserModel` (`user.dfy`): the `User` class (fields `email`, `password`,
  `sessions`, and Mongoose's change flag for `password`), its state-changing
  methods, and `findByCredentials` over a collection given as a sequence.

Facts about the code that shape the model:

- the user schema has only `email`, `password` and `sessions`; there is no owner or sub-user field;
- the refresh token carries 512 bits (64 random bytes);
- the lookup by id and token queries the path `session.token`, not `sessions`
  (that operation is not modelled, see below);
- `minlength` compares JavaScript's `.length`, which counts UTF-16 code units,
  so the password length is measured that way (`Text.Utf16Length`).

`crypto` is never imported in the file. `RefreshToken.Entropy` therefore has a
case `CryptoUnavailable` in which the call throws inside the promise executor
and the promise rejects. When the random source reports an error, the
promise never settles, because the `reject()` branch is commented out (see
Findings). `UserModel.User.CreateSession` takes the settled token promise as a
parameter, so it can be driven by either generator.

## Model

| member | source | states |
|---|---|---|
| `Hex.Encode` | api/db/models/user.model.js:75 | the hex text of a buffer has two characters per byte, each from `0-9a-f` |
| `Hex.Decode` | api/db/models/user.model.js:75 | decoding succeeds only on text of even length, giving half as many bytes |
| `Hex.DecodeEncode` | api/db/models/user.model.js:75 | decoding the hex text of a buffer gives the buffer back |
| `Hex.EncodeDecode` | api/db/models/user.model.js:75 | any text that decodes is the hex text of what it decodes to |
| `Hex.EncodeIffDecode` | api/db/models/user.model.js:75 | encoding `b` gives `s` exactly when decoding `s` gives `b` |
| `Hex.EncodeInjective` | api/db/models/user.model.js:75 | distinct buffers have distinct hex text |
| `Text.LeadingSpace` | api/db/models/user.model.js:14 | the counted prefix is all whitespace and the next character is not |
| `Text.TrailingSpace` | api/db/models/user.model.js:14 | the counted suffix is all whitespace and the character before it is not |
| `Text.Trim` | api/db/models/user.model.js:14 | the trimmed email is the input from the end of its leading whitespace on, with only whitespace after it and none at either end of the result; it is empty exactly when the input is all whitespace, and an already trimmed string is unchanged |
| `Text.Utf16Length` | api/db/models/user.model.js:21 | the length `minlength` compares counts each character once, or twice above U+FFFF, and is zero only for the empty string |
| `Text.Utf16LengthOfAstral` | api/db/models/user.model.js:21 | four emoji above U+FFFF measure eight units, so such a password meets the minimum |
| `Text.TrimIdempotent` | api/db/models/user.model.js:14 | trimming twice is trimming once |
| `Expiry.SecondsSinceEpoch` | api/db/models/user.model.js:135 | the seconds reading is the millisecond clock divided by 1000 |
| `Expiry.RefreshTokenExpiryTime` | api/db/models/user.model.js:187-192 | a new expiry is the current time plus 864000 seconds (ten days), so strictly in the future |
| `Expiry.HasRefreshTokenExpired` | api/db/models/user.model.js:134-143 | a session is unexpired exactly when its expiry is strictly later than now; an expiry equal to now has expired |
| `Expiry.ExpiryIsPermanent` | api/db/models/user.model.js:134-143 | once expired, a session stays expired as the clock advances |
| `Expiry.LifetimeIsTenDays` | api/db/models/user.model.js:187-192 | a session created at time c is unexpired at time t exactly when t < c + 864000000 ms |
| `Expiry.FreshExpiryNotExpired` | api/db/models/user.model.js:171 | a session is never expired at the moment it is created |
| `Schema.SessionFailures` | api/db/models/user.model.js:23-34 | the sessions report no failure exactly when every session has a non-empty token and an expiry |
| `Schema.Validate` | api/db/models/user.model.js:10-35 | a document passes validation exactly when the trimmed email is non-empty, the password is at least 8 UTF-16 code units long and every session has a token and an expiry |
| `Schema.SessionFailureExactly` | api/db/models/user.model.js:23-34 | the failure for session i's token (or expiry) is reported exactly when session i lacks that field |
| `Schema.EmailRejectedIffBlank` | api/db/models/user.model.js:11-17 | the email is rejected as missing exactly when it is absent or only whitespace |
| `Schema.PasswordTooShortExactly` | api/db/models/user.model.js:18-22 | the password is rejected as too short exactly when it is one to seven UTF-16 code units long |
| `Projection.Omit` | api/db/models/user.model.js:44 | the result keeps every key not listed, with its value, and no listed key |
| `Projection.ToJSON` | api/db/models/user.model.js:39-45 | the serialised user has no `password` and no `sessions`, and every other key keeps its value |
| `Projection.ToJSONIdempotent` | api/db/models/user.model.js:44 | serialising an already serialised object changes nothing |
| `RefreshToken.GenerateRefreshAuthToken` | api/db/models/user.model.js:68-85 | 64 random bytes give a token of 128 characters from `0-9a-f` that decodes back to those bytes; a throw rejects with the thrown error; a callback error leaves the promise unsettled |
| `RefreshToken.GenerateRefreshAuthTokenSettled` | api/db/models/user.model.js:80-82 | with the commented-out rejection restored, the promise always settles, rejecting with no reason on a callback error |
| `RefreshToken.DistinctBytesDistinctTokens` | api/db/models/user.model.js:73-75 | distinct random buffers yield distinct tokens |
| `UserModel.DocValidIff` | api/db/models/user.model.js:10-35 | a user passes validation exactly when its email is not blank, its password is at least 8 UTF-16 code units long and no session token is empty |
| `UserModel.AppendKeepsValid` | api/db/models/user.model.js:173 | pushing a session with a non-empty token keeps a valid user valid |
| `UserModel.User.constructor` | api/db/models/user.model.js:10-35 | a new user stores the trimmed email, has no sessions and has its password marked modified |
| `UserModel.User.ToJSON` | api/db/models/user.model.js:39-45 | the serialised user has exactly the keys `_id` and `email`, with the user's values |
| `UserModel.User.SetPassword` | api/db/models/user.model.js:151 | assigning a password marks it modified only if the value changes |
| `UserModel.User.PreSave` | api/db/models/user.model.js:147-162 | the password becomes its hash when it was modified and is left untouched otherwise; nothing else changes |
| `UserModel.User.Save` | api/db/models/user.model.js:147-162 | an invalid user is rejected with nothing changed; a valid one is re-hashed by the hook, then resolves or rejects with the store's error, and only a successful write clears the modified flag |
| `UserModel.User.SaveSessionToDatabase` | api/db/models/user.model.js:167-185 | the sessions grow by exactly one element at the end holding the token and an expiry ten days on; the promise resolves with that token exactly when validation and the write succeed; a validation failure rejects with the password and its modified flag untouched; otherwise the hook re-hashes a modified password, a store error rejects with that error and only a successful write clears the flag |
| `UserModel.User.CreateSession` | api/db/models/user.model.js:87-103 | on a token, one session holding it is appended; the promise resolves with that same token exactly when validation and the write succeed, and otherwise rejects with "Failed to save session to database.\n" followed by "ValidationError" or the store's error, with the password and flag as `Save` leaves them; on a rejected token nothing changes and the reason gets the prefix; an unsettled token leaves everything unsettled and unchanged |
| `UserModel.FirstWithEmail` | api/db/models/user.model.js:119 | the position found is the first user with the email, or the end when no user has it |
| `UserModel.FindByCredentials` | api/db/models/user.model.js:116-132 | resolves only with the first user having the email, and only when the password compares equal; an unknown email and a wrong password both reject with no reason, so they are indistinguishable |

## Left out

- `generateAccessAuthToken` (JSON Web Token signing with a fixed secret and a 15-minute expiry): signing and expiry live inside the `jsonwebtoken` library.
- `findbyIdAndToken`: it filters on the path `session.token`, which the schema does not declare; whether Mongoose strips such a path from the filter or MongoDB matches nothing depends on library versions and query semantics outside this file.
- Email uniqueness: a database index across the collection, not logic in this file.
- bcrypt: salt generation, hashing and comparison are the parameters `hash` and `compare`; the hook ignores the errors of `genSalt` and `hash`, and the model treats `hash` as total.
- Randomness: `crypto.randomBytes` is the parameter `Entropy`; the clock is the parameter `nowMs`.
- Persistence: the database write is the parameter `storeError`; what the store holds afterwards, `__v` version keys and the `_id` Mongoose gives each session subdocument are not modelled.
- UserModel.User.Save: validation is modelled as checking every constraint on every save, and a validation failure's reason as the text "ValidationError" rather than Mongoose's full message.
- UserModel.FindByCredentials: the email filter is matched exactly; any casting Mongoose applies to query values is not modelled.
- Floating point: `Date.now() / 1000` and the expiry sum are exact reals here, not IEEE doubles.
- Concurrency: promises are modelled by their settled outcome; interleavings of two saves of the same user are not modelled.
- The routes in `api/app.js` and the connection set-up in `api/db/mongoose.js` are not part of this model.

## Findings

| source | as written | input that shows it | evidently intended | confidence | as-written member | corrected member |
|---|---|---|---|---|---|---|
| api/db/models/user.model.js:73-83 | when `crypto.randomBytes` passes an error to its callback, nothing is called and the token promise never settles, so `createSession` hangs | `RandomBytesFailed` | reject the promise, as the commented-out `reject()` does | high; not executed | `RefreshToken.GenerateRefreshAuthToken` | `RefreshToken.GenerateRefreshAuthTokenSettled` |
