# easy-auth-mail token registry, in Dafny

This project models the core of easy-auth-mail, a small Node.js library that
mails single-use authentication tokens and later redeems them. The model covers:

- `UserToken`: one authentication attempt. It has a random hex `id`, an email
  and a password. `generateToken` sets a random hex token and replaces the
  password by its bcrypt hash, once.
- `StateToken`: the process-wide registry. It is an ordered list of
  `{userToken, timeOutID}` entries keyed by the token string, with
  `addToken`, `removeToken` and `getToken`. The singleton constructor is modelled too.
- `MailOptions`: a small envelope builder. It has a `setContent` whose
  `'html'` case falls through into `default`, and a `getObject` that sends
  html when there is html.
- The flow exported by `src/index.js`:
  - `authenticateUser` builds the token and its message and registers the
    token only when the send callback reports success.
  - `authenticateToken` redeems a token exactly once.

Files:
- `wrappers.dfy`: `Option`. It stands for JavaScript `null`.
- `hex.dfy`: `Buffer.toString('hex')`, with a decoder as its inverse.
- `user_token.dfy`: the `UserToken` class.
- `state_token.dfy`: the registry. Its list operations are written as
  functions on sequences (`FindIndex`, `Lookup`, `Added`, `Removed`), and
  their lemmas prove key uniqueness and "nothing else changes". The class
  `StateToken` performs them in place on its `state: seq<Entry>` field.
  `StateTokenStatic` is the static `StateToken.instance` slot.
- `mail_options.dfy`: the `types` map, the `MailOptions` class and the envelope datatype.
- `index.dfy`: the flow. Each method receives the module-level registry as a
  parameter. Sending mail becomes the send callback with an `err` input. The
  expiry timer becomes an explicit call made when it fires.

Randomness, hashing, mail delivery and timers are inputs:
- `crypto.randomBytes` becomes byte sequences passed in.
- bcrypt's `hash` becomes a function parameter `string -> string`. A Dafny
  function is deterministic, while bcrypt salts every call. No contract
  compares the results of two hash calls, so that difference is never used.
- The argument of `removeToken` is the JavaScript value it receives
  (`RemoveArg`): an entry, or a bare UserToken, whose missing `userToken`
  field makes the read `arg.userToken.token` throw.
- The callback given to `removeToken` becomes the out-parameter
  `callbackArg`. It is `Some(entry)` exactly when the callback runs, and then
  it holds the spliced-out entry.
- `clearTimeout(response.timeOutID)` in `authenticateToken` becomes the
  out-parameter `cleared`.

## Model

| member | source | states |
|---|---|---|
| Hex.ToHex | src/models/UserToken.js:13 | the hex text of n bytes has exactly 2n characters, all lower-case hex digits |
| Hex.HexRoundTrip | src/models/UserToken.js:13 | decoding the hex text gives back exactly the bytes (hex encoding loses nothing) |
| Hex.HexInjective | src/models/UserToken.js:5 | distinct random bytes give distinct hex ids and tokens |
| UserTokens.UserToken.constructor | src/models/UserToken.js:4-9 | a new UserToken keeps the given email and password, has no token (`null`), and its id is the 20-character hex text of its 10 random bytes |
| UserTokens.UserToken.GenerateToken | src/models/UserToken.js:11-16 | on a null token: the token becomes the hex text of the 5 bytes (10 lower-case hex characters) and the password becomes hash(old password); on a set token nothing changes; id and email never change; afterwards the token is non-null |
| UserTokens.GenerateTwice | src/models/UserToken.js:12 | idempotence: after two calls the token and the password are those of the first call |
| StateTokens.FindIndex | src/models/StateToken.js:17 | findIndex gives -1 exactly when no entry has the key, otherwise the first position whose entry has the key |
| StateTokens.Lookup | src/models/StateToken.js:37-43 | the lookup finds an entry exactly when the key is present; the entry is in the registry and carries the key; with distinct keys it is the only entry with that key |
| StateTokens.Added | src/models/StateToken.js:16-21 | adding keeps every earlier entry in place; it appends exactly the new entry when the key is absent and changes nothing when it is present; afterwards the key is present |
| StateTokens.Removed | src/models/StateToken.js:26-32 | removal hands back an entry exactly when the key is present; the entry handed back is the one getToken finds; when the key is absent nothing changes; otherwise one entry less, and the rest plus the removed entry equal the old contents as a multiset |
| StateTokens.RemovedShape | src/models/StateToken.js:29 | splicing keeps the entries before the removed one in place and shifts the later ones down by one, so the order of the rest is kept |
| StateTokens.AddedKeepsUnique | src/models/StateToken.js:17-20 | adding keeps the token keys distinct |
| StateTokens.RemovedKeepsUnique | src/models/StateToken.js:26-31 | removing keeps the token keys distinct |
| StateTokens.RemovedDropsKey | src/models/StateToken.js:27-29 | with distinct keys, no entry with the removed key is left |
| StateTokens.RemovedKeepsOtherLookups | src/models/StateToken.js:27-29 | removing one key changes the lookup of no other key |
| StateTokens.StateToken.constructor | src/models/StateToken.js:6 | a new registry is empty, so its keys are distinct |
| StateTokens.StateToken.AddToken | src/models/StateToken.js:16-21 | with the token already present the state is unchanged; otherwise exactly the entry is appended; key uniqueness is kept |
| StateTokens.FindIndexOfArg | src/models/StateToken.js:27 | findIndex with removeToken's predicate: given an entry it agrees with `FindIndex` on the entry's token; given a bare UserToken it throws exactly when the registry is non-empty, because the predicate runs only on elements |
| StateTokens.StateToken.RemoveToken | src/models/StateToken.js:26-32 | given an entry, it returns, and the new state and the callback's argument are those of `Removed`; the callback runs exactly when the key was present, with the entry of that key; afterwards the key is gone. Given a bare UserToken, it throws exactly when the registry is non-empty and changes nothing. When no callback runs the state is unchanged; uniqueness is always kept |
| StateTokens.StateToken.GetToken | src/models/StateToken.js:37-43 | reading the registry only: None exactly when no entry has the token, otherwise an entry of the registry carrying the token |
| StateTokens.StateTokenStatic.Construct | src/models/StateToken.js:4-10 | the first construction makes a fresh, empty registry; every later one returns that same instance with its state untouched |
| Mail.TypesTable | src/models/MailOptions.js:1-4 | `types` sends text/plain to text and text/html to html, and has no other keys |
| Mail.MailOptions.constructor | src/models/MailOptions.js:7-13 | from, to and subject are as given; text and html are null |
| Mail.MailOptions.SetContent | src/models/MailOptions.js:15-26 | text always becomes the content; html becomes the content only for type html (the fall-through), otherwise it is unchanged; from, to and subject never change |
| Mail.MailOptions.GetObject | src/models/MailOptions.js:28-45 | an html envelope exactly when html is non-null, carrying that html; otherwise a text envelope carrying text; from, to and subject always copied |
| Mail.Compose | src/models/MailOptions.js:15-45 | on a fresh envelope one setContent always reaches the message: as html for type html, as text for every other type |
| Mail.TextAfterHtml | src/models/MailOptions.js:20-35 | once html is set, a later text setContent no longer reaches the message: getObject still returns the earlier html |
| Auth.AuthenticateUser | src/index.js:33-55 | returns the new UserToken's token, which is non-null and the hex text of the token bytes; the password is hashed; the message goes from the sender to the user, with subject Authentication and text "Your token is: " followed by the token |
| Auth.SendMailCallback | src/index.js:44-53 | on a send error the registry is unchanged; otherwise the registry is `Added` with an entry holding that token and its timer, so the token becomes present; uniqueness is kept |
| Auth.AuthenticateToken | src/index.js:63-72 | returns true exactly when the token is registered; then it removes that entry, leaves the others, and clears that entry's timer; on false the registry is unchanged and no timer is cleared; afterwards the token is absent |
| Auth.RedeemTwice | src/index.js:63-72 | redeeming the same token twice in a row: the first result tells whether it was registered, the second is always false |
| Auth.DeliveredTokenRedeemsOnce | src/index.js:33-72 | on any registry, a token whose mail was delivered is redeemed once (true) and then refused (false) |
| Auth.RejectedDeliveryNotRedeemable | src/index.js:44-48 | on any registry not yet holding the new token: when sending fails the registry is left unchanged and the token cannot be redeemed |
| Auth.ExpireAsWritten | src/index.js:49-51 | as written, the timer calls `RemoveToken` on the bare UserToken: it throws a TypeError exactly when the registry is non-empty, and never changes the registry |
| Auth.ExpiryAsWrittenThrows | src/index.js:49-51 | counterexample on any registry: once a delivered token's timer fires as written, it has thrown a TypeError and the token's entry is still registered |
| Auth.Expire | src/index.js:49-51 | intended expiry: it removes the entry of its own token, exactly when present, with the same effect as `Removed`; uniqueness is kept and the token is gone |
| Auth.ExpiredTokenNotRedeemable | src/index.js:49-52 | on any registry, with the intended expiry, a delivered token whose timer fired can no longer be redeemed |
| Auth.RedeemedTokenDoesNotExpire | src/index.js:63-72 | on any registry not yet holding the new token: redeeming first clears that token's timer, an expiry that still fires finds nothing to remove, and the registry ends as it was, so exactly one of the two removes the entry |

## Findings

| source | as written | input that shows it | evidently intended | confidence | as-written member | corrected member |
|---|---|---|---|---|---|---|
| src/index.js:50 | the expiry timer calls `state.removeToken(userToken, …)` with the bare UserToken. `removeToken` reads `userToken.userToken.token` (src/models/StateToken.js:27). `userToken.userToken` is undefined, so the findIndex predicate throws a TypeError on the first entry. The throw happens inside a timer callback, so nothing catches it, and by Node's default an uncaught exception ends the process | send one token successfully, then let its 10 s timer fire while the registry holds that entry: a TypeError is thrown and the entry is not removed; by default the process then exits | pass an entry-shaped argument, `{userToken}`, so that the expired token's entry is removed | high, not executed | Auth.ExpireAsWritten, Auth.ExpiryAsWrittenThrows | Auth.Expire, Auth.ExpiredTokenNotRedeemable |

`StateToken.RemoveToken` stays keyed on `arg.userToken.token`, as written.
Only the expiry call site differs between the two halves of the finding:
`ExpireAsWritten` passes `BareUserToken(...)` and `Expire` passes `EntryArg(...)`.

## Left out

- `createTransport` and `transporter.sendMail` (src/index.js:14-20, 44) are network I/O through nodemailer. Delivery is only the `err` input of `Auth.SendMailCallback`. The `console.log(err)` call is left out too.
- Timers are not modelled:
  - `setTimeout` and its fixed 10000 ms delay are not modelled. The timer handle is a number passed in.
  - `clearTimeout` is reported as the `cleared` output and does not act on anything.
  - Expiry happens only when the `Expire`/`ExpireAsWritten` methods are called.
- `crypto.randomBytes` is not modelled. The random bytes are parameters, and uniqueness of ids or tokens across calls is not assumed.
- Hashing: the bcrypt hash (src/helpers/handleBcrypt.js) is an arbitrary function parameter. `decrypt`/`compare` is not used by the core and is not modelled.
- UserTokens.UserToken.GenerateToken: it runs synchronously here, hashing the password at once. In the source the token is set at once but the password is replaced only after the hash promise settles. `authenticateUser` does not await `generateToken` (src/index.js:35), so when it returns the password is still plaintext, every time. The model does not capture that delay, nor a rejected hash promise.
- Auth.ExpiryAsWrittenThrows: the TypeError is an `Outcome` value here. The model does not capture what follows in Node, where an uncaught exception in a timer callback ends the process by default and the in-memory registry with it.
- The shallow copies `{...userToken}` and `{...timeOutID}` become a value snapshot of the UserToken's fields (`TokenRecord`) and the timer number. JavaScript object identity is not modelled.
- `email`, `password` and `content` are strings here. The source would also accept `null` or other values, as src/test/test.js does.
- The template renderer `customHTML` and `createMailOptions` are called by the demo scripts but defined in no file of the repository shown. They are not part of this model. The demo scripts under src/test are left out.
- Mail.TypesTable: the `types` map is exported but used by no code of the core, so only its contents are stated.
