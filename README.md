# School API: authentication gate, registration/login and student handlers in Dafny

This project models the decision logic of a small Express service.

- **Bearer-token gate** (`authenticateToken`). It reads the `Authorization` header and takes the second space-separated piece as the token. It then ends in one of three ways: 401 (no token), 403 (the token fails verification), or the decoded payload attached to the request followed by `next()`.
- **`/register` and `/login`**. These run over the User table, keyed by email. Register validates the body, checks that the email is new, hashes the password, inserts the row and replies with a public view of it. Login validates, looks the user up, compares the password with the stored hash and signs a seven-day token.
- **Student handlers**. `getAllStudents` turns the query string into `findAll` options: limit, page, offset, sort direction and the include list. The find, update and delete handlers answer 404 for an unknown id. Create inserts one row.

The modules follow the source files:

| module | file | models |
|---|---|---|
| `Basics` | `basics.dfy` | optional fields, JavaScript truthiness of a field, which awaited call throws |
| `Strings` | `strings.dfy` | `split` with a one-character separator, `join`, ASCII `toLowerCase` |
| `Crypto` | `crypto.dfy` | `jsonwebtoken` and `bcryptjs` as oracles, with the facts the handlers rely on |
| `AuthMiddleware` | `auth_middleware.dfy` | `src/middlewares/auth.middleware.js` |
| `AuthRoutes` | `auth_routes.dfy` | the two handlers of `src/routes/auth.routes.js` |
| `JsNumbers` | `js_numbers.dfy` | JavaScript's `parseInt` without a radix, and `String(n)` for integers |
| `StudentController` | `student_controller.dfy` | `src/controllers/student.controller.js` |

How the model is built:

- **Oracles and their facts.** The signing, verification and hashing libraries are records of total functions. What the code relies on them for is stated as predicates, and the lemmas that need those facts take them as preconditions:
  - `SoundTokenService`: a fresh token is non-empty and has no spaces. It verifies to its claims, with `exp = iat + lifetime`, while `now < exp`, and fails as expired from then on.
  - `SoundHasher`: `compare(p, hash(p, cost, salt))` holds.
- **Parameters.** The secret `JWT_SECRET`, the clock (seconds) and bcrypt's random salt are passed in.
- **Thrown errors.** A `Fault` value names the awaited call that throws, if any, and the error's message.
- **State-changing handlers.** Register, create, update and delete are methods on a class that holds the table as a `map` plus the next id. Each method is proved equal to a pure outcome function, and the properties are proved about that function.
- **Read-only handlers.** Login and find-by-id are functions of the table, so they cannot write.
- **Atomicity.** Each handler runs as one atomic step.

## Where the code and its documentation differ

- **Duplicate email on `/register`.** The route's documentation (`src/routes/auth.routes.js:49-50`) promises 409 "Email already in use". The code answers 400 `'User already exists.'` (lines 61-63). The model follows the code, and `AuthRoutes.RegisterTwice` states the 400.
- **Scheme word in the gate.** The gate does not check for the `Bearer` scheme word that section 2.1 of RFC 6750 calls for. Any first word is accepted (`AuthMiddleware.SchemeNotInspected`, `AuthMiddleware.BasicLikeBearer`), and the model keeps that.
- **500 bodies.** Registration's 500 reply echoes the error's message, falling back to a generic text only when the message is empty. Login's 500 reply is always the generic text. Both are modelled as written.

## Model

| member | source | states |
|---|---|---|
| `Strings.Split` | src/middlewares/auth.middleware.js:5 | `split(sep)` gives at least one piece, no piece contains the separator, and joining the pieces with the separator gives back the input |
| `Strings.SplitJoin` | src/controllers/student.controller.js:90 | splitting undoes joining for separator-free pieces, so the pieces of a string are exactly the ones it was written from |
| `Strings.Lower` | src/controllers/student.controller.js:53 | `toLowerCase` keeps the length, maps each character by itself, and leaves no Basic Latin capital in the result |
| `Crypto.SoundHasherExists` | src/routes/auth.routes.js:122 | the assumed bcrypt fact (a password matches every hash made from it) is consistent: some hasher satisfies it |
| `Crypto.SoundTokenServiceExists` | src/routes/auth.routes.js:127 | the assumed `jsonwebtoken` facts are consistent: a token service whose tokens spell out the claims, `iat` and `exp` without spaces, and whose `verify` reads them back, satisfies `SoundTokenService`. So the lemmas that assume it do not hold vacuously |
| `AuthMiddleware.ExtractToken` | src/middlewares/auth.middleware.js:4-5 | an extracted token is non-empty and contains no space |
| `AuthMiddleware.TokenIsSecondPiece` | src/middlewares/auth.middleware.js:4-5 | for a header made of space-free pieces joined by single spaces, the token is the second piece when it exists and is non-empty, and there is no token otherwise |
| `AuthMiddleware.NoTokenCases` | src/middlewares/auth.middleware.js:4-9 | an absent header and a header with no space give no token |
| `AuthMiddleware.EmptySecondPiece` | src/middlewares/auth.middleware.js:5-7 | `"Bearer  x"` (empty second piece) gives no token |
| `AuthMiddleware.SchemeNotInspected` | src/middlewares/auth.middleware.js:5 | any space-free scheme word followed by one space and a space-free token yields that token |
| `AuthMiddleware.BasicLikeBearer` | src/middlewares/auth.middleware.js:5 | `"Basic abc"` and `"Bearer abc"` both yield `"abc"` |
| `AuthMiddleware.Authenticate` | src/middlewares/auth.middleware.js:3-19 | exactly one of three outcomes. Missing iff there is no token. Rejected iff there is a token and verification fails. Authenticated iff it succeeds, with the user set to exactly the decoded payload |
| `AuthMiddleware.Respond` | src/middlewares/auth.middleware.js:7-18 | no response (so `next()` runs) exactly on the authenticated path. Otherwise 401 exactly for a missing token, and 403 otherwise |
| `AuthMiddleware.MissingIgnoresVerify` | src/middlewares/auth.middleware.js:7-9 | without a token the outcome is the 401 `'Access token is required.'` whatever the verifier would say, so it is not consulted |
| `AuthMiddleware.RejectionsIndistinguishable` | src/middlewares/auth.middleware.js:15-18 | a bad signature and an expired token give the same outcome and the same 403 `'Invalid or expired token.'` |
| `AuthMiddleware.SignedTokenAdmittedUntilExpiry` | src/middlewares/auth.middleware.js:5-14 | a freshly signed token behind any scheme word is admitted with exactly its claims, `iat` and `exp` before expiry, and rejected from expiry on |
| `AuthRoutes.Public` | src/routes/auth.routes.js:73 | the public view carries the row's id, name and email, and its type has no password field |
| `AuthRoutes.RegisterFailure` | src/routes/auth.routes.js:74-77 | a thrown error gives 500 with the error's own message when it is non-empty, and `'Internal server error.'` when it is empty |
| `AuthRoutes.RegisterOutcome` | src/routes/auth.routes.js:53-78 | no row is created and no id used on any failure path. Every case, in the order the handler meets it: a missing field gives 400 `'Name, email, and password are required.'`; a throwing `findOne` gives the 500 of `RegisterFailure`; any stored email gives 400 `'User already exists.'`; a throwing `hash` or `create` gives that 500; otherwise the reply is 201. A 201 adds exactly one row (the new email with the next id and `hash(password)`, never the plaintext), changes no other row, and replies with the public view of the new row |
| `AuthRoutes.Login` | src/routes/auth.routes.js:108-136 | status is 200, 400, 401 or 500. 400 iff a field is missing. A stored email whose hash matches gets 200 when no call throws, and a 200 only happens that way, with a token signed over exactly that row's `{id, email}` for seven days. An unknown email, or a stored one whose hash does not match, gets 401 `'Invalid email or password.'`. 500 iff a throwing `findOne`, `compare` or `sign` is reached, always with the generic body |
| `AuthRoutes.RegisterKeepsInvariant` | src/routes/auth.routes.js:60-71 | registration keeps the table invariant: rows filed under their own email, ids below the next id and distinct |
| `AuthRoutes.RegisterValidation` | src/routes/auth.routes.js:57-59 | a missing name, email or password gives 400 `'Name, email, and password are required.'` and the table unchanged |
| `AuthRoutes.RegisterTwice` | src/routes/auth.routes.js:60-63 | registering an email a second time gives 400 `'User already exists.'` and keeps the single row of the first registration |
| `AuthRoutes.ThrownFailuresAre500` | src/routes/auth.routes.js:60-134 | each of the five calls that can throw gives a 500 once reached: `findOne`, `hash` and `create` on register (the message, or the generic text if empty, with the table unchanged); `findOne`, `compare` and `sign` on login (the generic text) |
| `AuthRoutes.LoginMissingFieldsIgnoresStore` | src/routes/auth.routes.js:113-115 | a missing email or password gives the same 400 whatever the table holds and whatever would fail, so the store is not consulted |
| `AuthRoutes.CredentialFailuresIndistinguishable` | src/routes/auth.routes.js:117-125 | an unknown email and a known email with a wrong password give the identical reply, 401 `'Invalid email or password.'` |
| `AuthRoutes.LoginTokenClaims` | src/routes/auth.routes.js:127-129 | the token of a successful login verifies to exactly `{id, email}` of the stored row for seven days from issue, and is expired after |
| `AuthRoutes.RegisterLoginAccess` | src/routes/auth.routes.js:65-129 | register, then log in with the same credentials, then present `Bearer <token>` before expiry. The new row's id and email reach the protected handler, and the registration reply holds no password |
| `AuthRoutes.UserStore.Register` | src/routes/auth.routes.js:53-78 | the imperative handler leaves the table and reply that `RegisterOutcome` describes, keeps the invariant, and changes nothing on failure |
| `JsNumbers.ParseShow` | src/controllers/student.controller.js:51-52 | `parseInt` reads back the decimal numeral of every integer, negatives included, also when non-digit text follows |
| `JsNumbers.ParseIgnoresLeadingWhiteSpace` | src/controllers/student.controller.js:51-52 | leading white space does not change what `parseInt` reads |
| `JsNumbers.ParseNaN` | src/controllers/student.controller.js:51-52 | text whose first character after white space and a sign is not a digit is `NaN` |
| `JsNumbers.ParseHex` | src/controllers/student.controller.js:51-52 | the `0x` prefix switches to base 16: `parseInt("0x1A") == 26` |
| `JsNumbers.ParseInt` | src/controllers/student.controller.js:51-52 | a number is read only when a decimal digit follows the white space and the sign, and always then unless the digit begins an empty `0x` prefix; a negative result needs a leading `-`. `ParseShow`, `ParseIgnoresLeadingWhiteSpace`, `ParseNaN` and `ParseHex` state the values it reads |
| `StudentController.OrDefault` | src/controllers/student.controller.js:51-52 | the fallback of a parsed number is the number itself unless it is `NaN` or 0, in which case it is the default |
| `StudentController.ParseParam` | src/controllers/student.controller.js:51-52 | an absent parameter (`parseInt(undefined)`) is `NaN`; a present one is `parseInt` of its text |
| `StudentController.LimitOf` | src/controllers/student.controller.js:51 | the limit is never 0: it is the parsed number when that is a non-zero number, and 10 when it is `NaN`, `0` or absent |
| `StudentController.PageOf` | src/controllers/student.controller.js:52 | the page is never 0: it is the parsed number when that is a non-zero number, and 1 when it is `NaN`, `0` or absent |
| `StudentController.SortOf` | src/controllers/student.controller.js:53 | an absent `sort` is ascending, and descending needs four characters; `SortDescending` states exactly which |
| `StudentController.PopulatePieces` | src/controllers/student.controller.js:54 | an absent `populate` gives no pieces; a present one gives its comma-split pieces |
| `StudentController.IncludeList` | src/controllers/student.controller.js:90-95 | the list has at most one element, and contains Course exactly when some comma-split piece of `populate` is `Course` or `course` |
| `StudentController.CallArrayMember` | src/controllers/student.controller.js:58 | for the two names the handlers call: `includes` returns whether the argument is one of the pieces, and `include` throws the `TypeError` `populate.include is not a function` |
| `StudentController.IncludeListVia` | src/controllers/student.controller.js:56-60 | built with `includes`, the include list is `IncludeList`; built with `include`, the first call throws `populate.include is not a function` |
| `StudentController.ListStudents` | src/controllers/student.controller.js:49-68 | the handler crashes exactly when it looks pieces up with `include`, with that message. Otherwise it fails with 500 and the error's message exactly when `findAll` throws, and else passes the include list, the parsed limit, offset `(page - 1) * limit` and the sort direction |
| `StudentController.GetAllStudentsAsWritten` | src/controllers/student.controller.js:49-68 | as written, listing always ends in the thrown `TypeError` and never in a response |
| `StudentController.AsWrittenAlwaysThrows` | src/controllers/student.controller.js:58-62 | every listing request crashes with that message before the `try`, never reaching `findAll` or the 500 branch |
| `StudentController.GetAllStudents` | src/controllers/student.controller.js:49-68 | with `includes` at line 58 the listing never crashes, and fails with 500 exactly when `findAll` throws. Otherwise the options are the include list, the parsed limit, offset `(page - 1) * limit` and the sort direction |
| `StudentController.LimitParsing` | src/controllers/student.controller.js:51 | a numeric limit is used as given, negatives included. `"0"`, non-numeric text and an absent parameter fall back to 10 |
| `StudentController.PageAndOffset` | src/controllers/student.controller.js:52-63 | a numeric page is used as given; `"0"` and absent fall back to 1. A numeric limit and page give `findAll` options with offset `(page - 1) * limit`, ascending order and no include |
| `StudentController.SortDescending` | src/controllers/student.controller.js:53 | descending iff `sort` is `desc` in any mix of case; absent or anything else is ascending |
| `StudentController.IncludeFromPieces` | src/controllers/student.controller.js:126-131 | for `populate` written as comma-free pieces, Course is included iff `Course` or `course` is one of the pieces |
| `StudentController.IncludeLowerCase` | src/controllers/student.controller.js:93 | `"Grade,course"` includes Course |
| `StudentController.IncludeUntrimmed` | src/controllers/student.controller.js:129 | `"Grade, Course"` does not: pieces are not trimmed |
| `StudentController.IncludeEmpty` | src/controllers/student.controller.js:90 | an empty or absent `populate` includes nothing |
| `StudentController.CreateOutcome` | src/controllers/student.controller.js:10-17 | 500 with the error's message and the table unchanged exactly when `create` throws. Otherwise 201, exactly one new row (the next id with the body as attributes), no other row changed, the new row as the reply, and the invariant kept |
| `StudentController.GetStudentById` | src/controllers/student.controller.js:89-104 | status is 200, 404 or 500. A throwing `findByPk` gives 500 with the error's message. Otherwise an absent id gives 404 `'Not found'`, and a stored id gives 200 with the stored row and the include list |
| `StudentController.UpdateOutcome` | src/controllers/student.controller.js:125-141 | the set of ids and every other row are unchanged, and any non-200 leaves the table as it was. A throwing `findByPk` gives 500 with its message; then an absent id gives 404; then a throwing `update` gives 500 with its message; otherwise 200, which writes the body over the found row's attributes and returns the row with the include list |
| `StudentController.DeleteOutcome` | src/controllers/student.controller.js:158-167 | any non-200 leaves the table as it was. A throwing `findByPk` gives 500 with its message; then an absent id gives 404; then a throwing `destroy` gives 500 with its message; otherwise `{message: 'Deleted'}`, which removes exactly that row and keeps every other |
| `StudentController.MissingIdIsNotFound` | src/controllers/student.controller.js:97-163 | an unknown id gives the same 404 from find, update and delete, with the table unchanged |
| `StudentController.CreateFindDelete` | src/controllers/student.controller.js:10-167 | a created row is found under its new id, and deleting it gives back the table as before the create |
| `StudentController.StudentStore.Create` | src/controllers/student.controller.js:10-17 | the imperative handler leaves the table and reply that `CreateOutcome` describes |
| `StudentController.StudentStore.Update` | src/controllers/student.controller.js:125-141 | the imperative handler leaves the table and reply that `UpdateOutcome` describes |
| `StudentController.StudentStore.Delete` | src/controllers/student.controller.js:158-167 | the imperative handler leaves the table and reply that `DeleteOutcome` describes |

## Findings

| source | as written | input that shows it | evidently intended | confidence | as-written member | corrected member |
|---|---|---|---|---|---|---|
| src/controllers/student.controller.js:58 | `populate.include('Course')`. Arrays have no `include` member, and the call is outside the `try` of line 62 | any `GET /students`, e.g. with an empty query | `populate.includes(...)`, as at lines 93 and 129 | high; not executed | `StudentController.GetAllStudentsAsWritten` (with `StudentController.AsWrittenAlwaysThrows`) | `StudentController.GetAllStudents` (with `StudentController.PageAndOffset`) |

## Left out

- **Signature cryptography.** HS256 signing and verification (section 3.2 of RFC 7518; claims and `exp` per section 4.1.4 of RFC 7519) are not modelled. Only the facts in `SoundTokenService` are assumed. Nothing is assumed about tokens that `sign` did not produce: the gate treats every failed verification alike, which is all the code does.
- **bcrypt.** The hashing algorithm, work factor and salt generation are not modelled. Only `SoundHasher` is assumed. `compare` is not assumed injective, because bcrypt ignores bytes past the 72nd, so a wrong password is whatever `compare` rejects.
- **Sequelize.** The tables are in-memory maps. `findOne({where: {email}})` is exact key membership; a database collation that compares emails case-insensitively is not modelled. `findByPk` takes an integer id; converting the path parameter from a string is not modelled.
- **Concurrency.** Each handler runs atomically. Two concurrent registrations of one email, and the store's uniqueness constraint rejecting the second, are not modelled.
- **Rows returned by `findAll`.** `GetAllStudents` stops at the options it passes: ordering by `createdAt`, paging, and loading the Course association are the store's work.
- **Attribute handling in Sequelize.** `create` and `update` are modelled as whole-body inserts and merges over string attributes. Model validation, unknown attributes and an `id` in the body are not modelled.
- **Non-string inputs.** Request fields are absent-or-string. Numbers, booleans or objects in the JSON body, and query parameters that arrive as arrays (a repeated parameter), are not modelled.
- **parseInt and the offset.** `JsNumbers.ParseInt` works on unbounded integers. The floating-point result (precision loss beyond 2^53, `Infinity`) is not modelled, and a negative zero is 0. That zero does not change the `|| default` outcome, since both are falsy. The offset `(page - 1) * limit` is a double in JavaScript too and is inexact beyond 2^53; `GetAllStudents` states it as the exact integer product.
- **toLowerCase.** Only Basic Latin letters are lowercased. No other character lowercases to a letter of `desc`, so the sort decision is unaffected.
- **Crash consequences.** The effect of the `getAllStudents` crash beyond the handler is represented only as the `Crashed` outcome. The handler's promise is rejected; under Express 4 no response is sent, and under Express 5 the default error handler answers 500. Which version runs is outside the modelled files.
- **Framework code.** Express routing, `res.status().json()` serialisation, Swagger comments and `console.error` logging are not modelled.
- **Secret.** `process.env.JWT_SECRET` is a fixed parameter rather than an environment read.
- **`src/routes/user.routes.js`.** It is route wiring plus one `findAll` projection to id, name and email, behind the gate modelled above, and is not part of this model.
