# castaway: session tokens and per-user rows, in Dafny

castaway is a Next.js application where a user signs in with Spotify, keeps
a list of favourite albums and can make their profile public. This project
models its server side:

- the NextAuth callbacks of `lib/authOptions.js`. `jwt` issues the token on
  sign-in, passes an unexpired token through, and refreshes an expired
  one with the OAuth 2.0 refresh-token grant (section 6 of RFC 6749).
  `refreshAccessToken` merges the token endpoint's reply into the token or
  marks it with `RefreshAccessTokenError`. `session` copies the token onto
  the client session in place;
- the four API routes that write rows for the signed-in user:
  `pages/api/albums.js` (insert, owner-scoped delete),
  `pages/api/consent.js` (validated upsert keyed by user id),
  `pages/api/profile.js` (upsert keyed by id) and
  `pages/api/toggle-privacy.js` (owner-scoped update of `public`).

The clock and the token endpoint's reply are parameters. So is the
datastore's error, when it reports one.

Modules, one per file:

- `Js` (js.dfy): JavaScript values. `Option` stands for undefined/null, and
  `Json` for body values. It also has the operators `??` and `||`.
- `Http` (http.dfy): the request (method and JSON body) and the response
  (status, `Allow` header, body).
- `AuthOptions` (auth_options.dfy): the token, `RefreshAccessToken`, `Jwt`,
  and the `Session` class with `SessionCallback`. It also holds lemmas
  about a run of `jwt` calls.
- `Supabase` (supabase.dfy): the tables `user_albums`, `user_consent` and
  `profiles`. Each table is a class over a row sequence. Its statements are
  functions on the rows.
- `AlbumsApi`, `ConsentApi`, `ProfileApi`, `TogglePrivacyApi`: one module
  per route. Each has a pure `Respond` function from (caller, request,
  rows, fault) to (response, new rows). Each also has the imperative
  `Handler` method, which changes the table in place and is proved equal
  to `Respond`.

The model follows the code, including where it does less than the app
suggests or than one might expect:

- a successful refresh does not clear an earlier `error`, because the
  reply is spread over the old token;
- pages/login.js:29 advertises "top 5" albums, but nothing caps a user's
  albums or rejects a repeated one;
- a DELETE that matches nothing answers 200, whether the row is missing or
  belongs to someone else;
- a DELETE without a readable `id` is refused by the datastore and answers
  500;
- the profile route checks only that a session exists;
- a profile upsert error answers 400, while the other routes answer 500.

## Model

| member | source | states |
|---|---|---|
| `Js.Coalesce` | lib/authOptions.js:30 | `a ?? b` keeps `a` when present, otherwise `b` |
| `Js.Or` | lib/authOptions.js:77 | JavaScript's logical or on strings keeps `a` when truthy (present and non-empty), otherwise `b` |
| `Js.Millis` | lib/authOptions.js:29 | seconds times 1000 is NaN exactly when the value is undefined; null counts as 0 |
| `AuthOptions.ExpiryAt` | lib/authOptions.js:29 | the expiry is NaN exactly when `expires_in` is undefined. A null `expires_in` expires at `now`, and a number lies `1000 * expires_in` ms after `now` |
| `AuthOptions.RefreshAccessToken` | lib/authOptions.js:7-36 | identity and other claims are kept. On success: the access token and expiry come from the reply, the refresh token rotates only if the reply has one, and `error` is unchanged. On failure: the credentials and expiry are unchanged and `error` is `RefreshAccessTokenError` |
| `AuthOptions.Jwt` | lib/authOptions.js:70-91 | on sign-in, a fresh envelope built from account and user (`id` falls back to the email, no error, no other claims). Otherwise an unexpired token is returned unchanged, and an expired one is the result of one refresh |
| `AuthOptions.JwtCallsProviderOnlyWhenExpired` | lib/authOptions.js:72-90 | the token endpoint's reply can change the result only when there is no sign-in and the token has expired |
| `AuthOptions.RefreshMovesExpiryLater` | lib/authOptions.js:85-90 | an expired token refreshed with a positive `expires_in`, at a clock reading no earlier than the expiry check's, gets a strictly later expiry |
| `AuthOptions.NullExpiryExpiresAtOnce` | lib/authOptions.js:76-88 | a sign-in with a null `expires_in` gets an expiry equal to the sign-in time, so any later call refreshes |
| `AuthOptions.MissingExpiryAlwaysRefreshes` | lib/authOptions.js:76-90 | a token whose expiry is NaN (no `expires_in` at sign-in) is refreshed on every call |
| `AuthOptions.ReplayKeepsIdentity` | lib/authOptions.js:26-34 | over any run of calls without sign-in, id, name, email, image and the other claims never change |
| `AuthOptions.ReplayKeepsError` | lib/authOptions.js:26-31 | once `error` is set, no later call clears it; a successful refresh keeps it |
| `AuthOptions.ReplayKeepsRefreshError` | lib/authOptions.js:32-35 | after a failed refresh the error marker survives every later call |
| `AuthOptions.ReplayKeepsRefreshToken` | lib/authOptions.js:30-34 | a refresh token, once held, is never lost: a reply without one and a failed refresh both keep it |
| `AuthOptions.FailedRefreshRetriesWithSameToken` | lib/authOptions.js:32-35 | a failed refresh keeps the stale refresh token and the token stays expired, so the next call refreshes again |
| `AuthOptions.SessionCallback` | lib/authOptions.js:93-102 | the session's user id, name, email and image, its access and refresh tokens, and its error equal the token's. The same object is returned, with its user object and `expires` kept |
| `AuthOptions.SignedInId` | pages/api/albums.js:9-11 | the guard `session?.user?.id` admits a caller exactly when there is a session whose user id is present and non-empty |
| `Supabase.ParseBigint` | pages/api/albums.js:47 | text is accepted exactly when it is a run of decimal digits with at most one leading sign; digits read as their value, a `+` keeps it and a `-` negates it. Anything else, empty text included, is refused |
| `Supabase.IdFilter` | pages/api/albums.js:41-47 | a number filters on itself, a string on its bigint reading, and a missing id (or any other value) is refused |
| `Supabase.ParseDecimalText` | pages/api/albums.js:47 | the decimal text of a number is a run of digits whose value is that number |
| `Supabase.DeleteWhere` | pages/api/albums.js:44-48 | a row survives exactly when it is not the one with the given id owned by the given user |
| `Supabase.DeleteWithoutMatchIsIdentity` | pages/api/albums.js:44-48 | a delete that matches no row leaves the table identical |
| `Supabase.DeleteKeepsIdsUnique` | pages/api/albums.js:44-48 | the delete keeps row ids unique |
| `Supabase.DeleteRemovesAtMostOne` | pages/api/albums.js:44-48 | with unique ids, a delete removes at most one row |
| `Supabase.CountOwnedAppend` | pages/api/albums.js:17-26 | an inserted row raises its owner's count (and that album's count) by one and nobody else's |
| `Supabase.AlbumsTable.Insert` | pages/api/albums.js:17-26 | appends one row with a fresh id and the given owner and columns, and returns it; ids stay unique |
| `Supabase.AlbumsTable.Delete` | pages/api/albums.js:44-48 | the rows become `DeleteWhere` of the old rows, and ids stay unique |
| `Supabase.UpsertConsent` | pages/api/consent.js:26-28 | the key then holds the given row, and every other key holds what it held. The table grows only when the key was new |
| `Supabase.UpsertConsentKeepsKeysUnique` | pages/api/consent.js:26-28 | the upsert never duplicates `spotify_user_id` |
| `Supabase.ConsentTable.Upsert` | pages/api/consent.js:26-28 | the rows become `UpsertConsent` of the old rows and keys stay unique |
| `Supabase.UpsertProfile` | pages/api/profile.js:16-18 | the id then holds the merge of its old row with the given name and image (a new row gets null for a missing column and the default `public`). Every other id is unchanged. The table grows only for a new id |
| `Supabase.UpsertProfileKeepsKeysUnique` | pages/api/profile.js:16-18 | the upsert never duplicates the primary key |
| `Supabase.UpsertProfileIdempotent` | pages/api/profile.js:16-18 | applying the same upsert twice gives the same table as once |
| `Supabase.UpdatePublic` | pages/api/toggle-privacy.js:11-14 | the same rows in the same order with ids, names and images kept. Only rows with the given id get the new `public`, and only when a value is given |
| `Supabase.UpdateOfMissingIdIsIdentity` | pages/api/toggle-privacy.js:11-14 | an update of an id with no row leaves the table identical |
| `Supabase.ProfilesTable.Upsert` | pages/api/profile.js:16-18 | the rows become `UpsertProfile` of the old rows and keys stay unique |
| `Supabase.ProfilesTable.UpdatePublicOf` | pages/api/toggle-privacy.js:11-14 | the rows become `UpdatePublic` of the old rows and keys stay unique |
| `AlbumsApi.Respond` | pages/api/albums.js:6-64 | no caller: 401 and no change. No change unless 200. Another user's row is never removed, and any new row belongs to the caller. Other methods: 405 with `Allow: POST, DELETE` and `{error: "Method <verb> Not Allowed"}`. A DELETE whose id the column cannot read: 500 with the datastore's refusal. A datastore error: 500 with its message |
| `AlbumsApi.PostInsertsOneOwnedRow` | pages/api/albums.js:13-33 | a successful POST appends exactly one row, owned by the session's user even when the body names another `user_id`, with the four album columns from the body. It answers with that row |
| `AlbumsApi.PostIgnoresQuotaAndDuplicates` | pages/api/albums.js:17-26 | a successful POST always raises the caller's row count and that album's count by one, however many rows they already hold |
| `AlbumsApi.DeleteRemovesExactlyOwnedMatch` | pages/api/albums.js:40-55 | a DELETE with a readable id answers 200 `{success:true}`, and a row survives exactly when it does not both have that id and belong to the caller |
| `AlbumsApi.DeleteWithoutIdFails` | pages/api/albums.js:41-53 | a DELETE whose body has no `id` answers 500 and removes nothing |
| `AlbumsApi.DeleteByNumericStringId` | pages/api/albums.js:41-48 | an id sent as decimal text has the same outcome as the same id sent as a number |
| `AlbumsApi.DeleteRemovesAtMostOneRow` | pages/api/albums.js:44-48 | with unique ids a DELETE removes at most one row |
| `AlbumsApi.DeleteOfNoOwnedRowStillSucceeds` | pages/api/albums.js:44-55 | a DELETE with a readable id that matches none of the caller's rows (missing, or another user's) still answers 200 and changes nothing |
| `AlbumsApi.Handler` | pages/api/albums.js:6-64 | response and new table are those of `Respond`, and the table's invariant is kept |
| `ConsentApi.ConsentStatus` | pages/api/consent.js:14-18 | a status is accepted exactly when the body's `consent_status` is the string `accepted` or `declined` |
| `ConsentApi.Respond` | pages/api/consent.js:6-40 | no caller: 401 for every method. Other methods: 405 with `Allow: POST` and a text body. Invalid status: 400. A datastore error: 500 with its message. Otherwise 200 `{success: true, data: null}`. Nothing is written unless 200. On 200 the caller's row carries the status and date, and every other user's row is unchanged |
| `ConsentApi.ValidPostNeverDuplicates` | pages/api/consent.js:20-35 | a valid POST answers 200 and keeps one row per user; the table grows only on the caller's first consent |
| `ConsentApi.SecondConsentReplacesFirst` | pages/api/consent.js:26-28 | after two valid POSTs the caller's row holds the second status and date, and the second POST adds no row |
| `ConsentApi.Handler` | pages/api/consent.js:6-40 | response and new table are those of `Respond`, and keys stay unique |
| `ProfileApi.UpsertError` | pages/api/profile.js:20 | an upsert error answers 400 |
| `ProfileApi.Respond` | pages/api/profile.js:6-27 | no session: 401. Other methods: 405 with `Allow: POST` and `{error: "Method <verb> Not Allowed"}`. Missing id: 400 with the not-null refusal. A datastore error: 400 with its message. Otherwise 200 `{data: null}` and the rows become the upsert on the caller's id of the body's name and image. No change unless 200. On 200 the caller's row holds the given name and image, an existing row keeps `public`, and every other profile is unchanged |
| `ProfileApi.RepeatedPostIsIdempotent` | pages/api/profile.js:14-22 | repeating the same POST gives the same response and the same table as the first one |
| `ProfileApi.PostKeepsOneRowPerId` | pages/api/profile.js:16-18 | a POST keeps one row per id; the table grows only for a new user |
| `ProfileApi.FirstPostCreatesProfile` | pages/api/profile.js:14-18 | a new user's first POST creates their row with the body's name and image and the default visibility |
| `ProfileApi.Handler` | pages/api/profile.js:6-27 | response and new table are those of `Respond` for the session's presence and user id, and keys stay unique |
| `TogglePrivacyApi.Respond` | pages/api/toggle-privacy.js:5-18 | no caller: 401. A datastore error: 500. Otherwise 200 `{success: true, data: null}`, and the rows become the update of the caller's `public` to the body's value. A request without `public` changes nothing. Only `public` can change, and only on the caller's own row, where it becomes the body's value |
| `TogglePrivacyApi.AnyMethodUpdates` | pages/api/toggle-privacy.js:5-17 | the request method does not affect the outcome |
| `TogglePrivacyApi.NoRowMeansNoChange` | pages/api/toggle-privacy.js:11-14 | a caller without a profile row gets no new row: the table is unchanged |
| `TogglePrivacyApi.FindAfterUpdate` | pages/api/toggle-privacy.js:11-14 | looked up by id, the caller's row (if any) gets the new `public` and every other id's row is unchanged |
| `TogglePrivacyApi.Handler` | pages/api/toggle-privacy.js:5-18 | response and new table are those of `Respond`, and keys stay unique |

## Left out

- The HTTP call inside `refreshAccessToken` is left out: the axios POST, the form body, the Basic client authentication (section 2.3.1 of RFC 6749) and the logging. The model takes its outcome as a `TokenReply` parameter. `Failed` covers network errors and non-2xx statuses. A 2xx body with missing fields is a `Granted` reply with those fields None.
- `Date.now()` and `new Date().toISOString()` are parameters. `jwt` reads the clock twice, once to check the expiry (`now`) and once after the token endpoint answers (`refreshedAt`); the two are separate parameters.
- Numbers are unbounded integers, not IEEE doubles. NaN arises only from an undefined `expires_in`; a null one counts as 0. An `expires_in` that is some other non-numeric value is not modelled.
- The NextAuth provider and cookie configuration (lib/authOptions.js:39-61) and `pages` (lib/authOptions.js:105-107) are left out. `session.maxAge` is the constant `SessionMaxAge`; NextAuth enforces it, and that enforcement is not modelled.
- A body key that is missing is treated as not written. On insert the column gets null. On upsert and update the column is left as it was. This follows `JSON.stringify` dropping undefined keys; PostgREST's exact handling is not modelled. A toggle without `public` therefore changes nothing.
- The DELETE filter assumes `user_albums.id` is a `bigint` column. A string id is read as an optionally signed run of digits; whitespace around it, the bigint range, and the `_` separators and `0x`/`0o`/`0b` prefixes that PostgreSQL 16 and later accept are not modelled. An array id is treated as refused, although `String(["5"])` is `"5"`. The refusal's message leaves out the offending text.
- The `profiles.public` column default is not fixed by the code, so `ProfilesTable` carries it as a parameter.
- `created_at` and other columns the database fills in are not modelled.
- Without `.select()`, the datastore's `data` is modelled as null.
- The profile route's 400 body carries only the error's `message`, and the message texts follow PostgreSQL 12 and later.
- Exceptions are modelled only where the code catches them. In albums.js they answer 500 like a datastore error. consent.js, profile.js and toggle-privacy.js have no `try`, so a thrown exception there is left to Next.js and not modelled. A request body that is not a JSON object, which makes the destructuring throw, is not modelled either.
- pages/api/profile.js imports `authOptions` from the NextAuth route file, which has no such named export. The model assumes the profile route receives the session that the session callback builds.
- pages/_app.js:10-33 posts to the profile route on every session change; the code keeps no flag that limits this to once per login. That component is UI and is not modelled.
- Concurrent requests and racing refreshes are left out; the model is sequential.
- The React pages, components and the analytics helper are UI and are not part of this model.
