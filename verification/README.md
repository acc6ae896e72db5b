# User-authentication service: a Dafny model of its request handlers

This project models the core of a small Express/MongoDB authentication service.
It covers the four handlers of the authentication controller (`registerUser`,
`loginUser`, `forgotPassword`, `resetPassword`) and the protected profile route.
That route is the `verifyToken` middleware followed by `getUserProfile`.

Each handler is a pure transition `(State, request fields) -> (Response, State, mail)`:

- `Store.State` holds the user collection and the reset-token collection. Both are
  sequences in insertion order. When several records match a lookup (`findOne`,
  `findById`), the model returns the first in insertion order. The controller
  passes the email to the lookup unchanged.
- A user is `{id, fullName, email, password}`. A reset token is `{userId, token}`.
- Values the handlers get from outside are parameters: the generated user id, the
  generated `uuid`, the clock (`now`, in seconds), the password matcher
  (`comparePassword`) and the token signer and decoder (`Session.Jwt`).
- `Session.Verify` checks expiry the way the token library does: a token is
  rejected once `now >= exp`. A login at time `now` signs `exp = now + 3600`.
- `Header.Split` models JavaScript's `split(' ')`. `Header.ExtractToken` is
  `authorization?.split(' ')[1]`, kept only when truthy.
- `Store.Valid` is the invariant of reachable states. It says emails, ids and token
  values are distinct and every reset token names an existing user. The handlers
  preserve it when generated ids and token values are fresh (`Service.Fresh`).
- `Service.Step` dispatches one request. `Service.Run` folds a sequence of requests.

In these respects the model follows the code, which a reader might not expect:

- The controller passes the email to the store unchanged; it does not lower-case or trim it.
- A token that fails verification, including an expired one, yields 500
  "Failed to authenticate token", not 401.
- The controller never checks a reset token's age.
- Deleting the redeemed token is a separate step after the password update.
- `forgotPassword` answers 400 for an unknown email, which differs from success.

## Model

| member | source | states |
|---|---|---|
| Store.FindByEmail | controller/auth.controller.js:20 | The result is the first user whose email equals the query exactly; None exactly when no user has that email |
| Store.FindById | routes/protected.js:22 | The result is the first user with that id; None exactly when no user has it |
| Store.FindToken | controller/auth.controller.js:95 | The result is the first reset-token record with that value; None exactly when there is none |
| Lookup.RemoveAt | controller/auth.controller.js:105 | Deleting the redeemed record keeps every other record, in order, and shortens the collection by one |
| Lookup.RemoveAtMultiset | controller/auth.controller.js:105 | Deleting the record removes exactly that record from the multiset of tokens |
| Store.EmailCountZero | controller/auth.controller.js:20-24 | No user has the email exactly when the lookup by email finds nothing |
| Store.EmailCountAtMostOne | controller/auth.controller.js:20-24 | With distinct emails, at most one user carries any email |
| AuthController.RegisterUser | controller/auth.controller.js:14-30 | A falsy field gives 400 and no change; a known email gives 400 "User already exists" and no change; 201 exactly when both checks pass, and then exactly one user with the given fields is appended and tokens are unchanged |
| AuthController.RegisterTwiceKeepsOneUser | controller/auth.controller.js:20-30 | A second registration of the same email is rejected, changes nothing, and exactly one user has that email |
| AuthController.RegisterPreservesValid | controller/auth.controller.js:20-28 | With a fresh id, registration keeps emails and ids distinct and every token's owner known |
| AuthController.LoginUser | controller/auth.controller.js:44-66 | State and mail unchanged; a falsy field gives 400; 200 exactly when the first user with the email accepts the password, with a token signed for that user's id and email expiring one hour after now; every other outcome is the same 401 response |
| AuthController.LoginFieldsCheckedFirst | controller/auth.controller.js:44-47 | With a missing field the response is 400 whatever the store holds: the store is not consulted |
| AuthController.LoginFailuresIndistinguishable | controller/auth.controller.js:50-61 | An unknown email and a wrong password give identical responses and leave the state unchanged |
| AuthController.LoginTokenValidForOneHour | controller/auth.controller.js:64-66 | The login token verifies with the matched user's id and email before now + 3600 and fails from then on |
| AuthController.ForgotPassword | controller/auth.controller.js:77-84 | Unknown email gives 400 with no token and no mail; otherwise exactly one token for that user's id is appended, users are unchanged, and one mail carrying the value goes to the account's email |
| AuthController.ForgotResponseHidesToken | controller/auth.controller.js:81-84 | The response is the same for every generated token value; the value appears only in the mail |
| AuthController.ForgotPreservesValid | controller/auth.controller.js:77-82 | With a fresh token value, the new token keeps values distinct and names an existing user |
| AuthController.ResetPassword | controller/auth.controller.js:95-106 | An unknown token gives 400 "Invalid or expired password reset token" and no change; a token whose user is missing gives 400 "User not found" and no change; otherwise only that user's password becomes newPassword and only that token record is deleted |
| AuthController.ResetIsSingleUse | controller/auth.controller.js:95-105 | With distinct token values, after a successful reset the same value is rejected with 400 and nothing changes |
| AuthController.RepeatedTokenValueRedeemsTwice | controller/auth.controller.js:81-105 | If two forgot-password requests store the same value, that value resets the password twice: single use depends on distinct values |
| AuthController.ResetKeepsOtherTokens | controller/auth.controller.js:105 | Redeeming one token leaves every other stored token redeemable |
| AuthController.ValidResetNeverOrphaned | controller/auth.controller.js:99-102 | In a valid store, reset never answers "User not found" |
| AuthController.ForgotThenReset | controller/auth.controller.js:77-106 | The mailed value resets that user's password with 200 and leaves the token collection as it was before the forgot request |
| AuthController.ResetKeepsKeys | controller/auth.controller.js:103-104 | A successful reset keeps every user's id and email in place and the number of users unchanged |
| AuthController.ResetPreservesValid | controller/auth.controller.js:103-105 | Changing a password and deleting a token keep the store invariant |
| Session.IssuedTokenLifetime | routes/protected.js:12-14 | A signed token verifies with its claims exactly while fewer than 3600 seconds have passed since issue |
| Session.Verify | routes/protected.js:12-14 | A token is accepted only while it decodes and the clock is before its expiry, and then yields exactly the decoded claims; it is rejected when it does not decode or once now >= exp. IssuedTokenLifetime and VerifyToken's contract pin down what this means for signed login tokens and for the middleware |
| Header.Split | routes/protected.js:9 | Splitting on a space yields at least one piece, and no piece contains the separator |
| Header.JoinSplit | routes/protected.js:9 | Joining the pieces with the separator gives back the header: nothing is lost |
| Header.SplitJoin | routes/protected.js:9 | Splitting joined separator-free pieces gives back the pieces |
| Header.ExtractToken | routes/protected.js:9-10 | An extracted token is non-empty and contains no space |
| Header.ExtractTokenOfPieces | routes/protected.js:9-10 | For a header of space-free pieces the token is exactly the second piece if present and non-empty, otherwise none |
| Header.BearerTokenExtracted | routes/protected.js:9 | Any space-free scheme word followed by a space and a token yields that token: the scheme is not checked |
| Header.ExtractedTokenPosition | routes/protected.js:9 | An extracted token sits right after the first space and ends at a space or the end of the header |
| ProtectedRoute.VerifyToken | routes/protected.js:8-17 | No usable token gives 403 "No token provided"; a token that fails verification gives 500; otherwise it continues with the decoded payload's userId |
| ProtectedRoute.GetUserProfile | routes/protected.js:20-24 | An unknown id gives 404 "User not found"; otherwise 200 with exactly the user's fullName and email |
| ProtectedRoute.Profile | routes/protected.js:31 | The route chains the middleware and the handler: no usable token gives 403, a token that fails verification gives 500, and a verified token gives exactly the profile handler's answer for the token's user id |
| ProtectedRoute.ProfileWithoutToken | routes/protected.js:9-10 | Without a usable token the answer is 403 whatever the store holds: the handler is not reached |
| ProtectedRoute.ProfileWithBadToken | routes/protected.js:12-13 | A token that fails verification gives 500 and the handler is not reached |
| ProtectedRoute.ProfileIgnoresPasswords | routes/protected.js:22-24 | Stores that differ only in passwords answer every profile request the same: no password is revealed |
| ProtectedRoute.ProfileWithIssuedToken | routes/protected.js:9-15 | An unexpired signed token after any scheme word reaches the profile handler with the token's user id |
| Service.StepPreservesValid | controller/auth.controller.js:8-111 | Every request keeps the store invariant when generated values are fresh |
| Service.RunPreservesValid | controller/auth.controller.js:8-111 | Every run of requests with fresh generated values keeps the store invariant |
| Service.ReachableStatesValid | controller/auth.controller.js:8-111 | Every state reached from the empty store by requests with fresh generated values satisfies the store invariant |
| Service.StepKeepsEmailsUnique | controller/auth.controller.js:20-28 | No request creates a second user with an existing email, whatever values are generated |
| Service.RunKeepsEmailsUnique | controller/auth.controller.js:20-28 | No sequence of requests ever yields two users with the same email |
| Service.RegisterThenLogin | controller/auth.controller.js:27-66 | After registering a new email, logging in with the same password returns 200 with a token signed for the new user's id and email |
| Service.RegisterLoginProfile | routes/protected.js:9-24 | Register, then log in with the same password, then fetch the profile within the hour: 201, then 200, then exactly the registered name and email |

## Left out

- The `catch` blocks that turn database, library or mail failures into 500 are not modelled. Those failures cannot be seen from the code. This includes a mail failure after the reset token was already saved.
- Password hashing and `comparePassword` are not modelled. They live in the user model, which is not part of this model. They are the abstract `matches` parameter, and the store keeps the password value as given.
- Token signing and signature checking are not modelled. They are the abstract `Jwt` record, an encoder plus a decoder that may reject a token. The signing secret is folded into it.
- Generating ids and `uuid` values is not modelled. Both are parameters. Their uniqueness is a precondition (`Service.Fresh`) only where a property needs it.
- Mail delivery is not modelled. The handler's `sendEmail` call is recorded as a `Mail` value in the transition's outbox.
- Console logging, Express routing and server start-up are not modelled.
- Request-body fields that are not strings (numbers, booleans, objects such as query operators) are not modelled. A field is either absent or a string, and "falsy" means absent or empty. So `ForgotThenReset` and `ResetIsSingleUse` hold only for string tokens: a reset body `{"token": {"$ne": null}}` would make the token lookup redeem the first stored record without knowing its value.
- The email in `forgotPassword` and the token and new password in `resetPassword` are modelled as present strings. The handlers never validate them. An absent value becomes an `undefined` query filter or an `undefined` password, and what that does depends on the database driver and the user model's validation.
- Concurrent requests are not modelled. The reset-token lookup and its later deletion are not atomic, and the model is sequential.
- Repeated `Authorization` headers are not modelled. The HTTP server keeps the first one and discards the rest before the middleware runs.
- `Store.FindByEmail`/`FindToken`: when several records match, the model picks the first in insertion order, whereas MongoDB's natural order is unspecified. Under `Store.Valid` at most one record matches, so no property of a valid state depends on the choice. Outside the invariant (for example `LoginUser` with two users sharing an email), the model's answer is one of the answers the database may give.
- Any normalisation or expiry done by the User and Token schemas is not modelled. Those schemas are not part of this model. A `lowercase` or `trim` option on the email field would normalise the lookup, and a time-to-live index on reset tokens would expire them.
