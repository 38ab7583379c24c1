# howdy-site waitlist function, modelled in Dafny

The repository's one HTTPS function, `siteWaitlist` (firebase/functions/index.js),
takes an email address by POST and records a signup in the `waitlist` collection,
keyed by the normalised address. This project models it in two modules:

- `Email` (email.dfy) models `toEmail`, which is pure. It coerces the field to a
  string, trims it and lower-cases it. It rejects an empty result. It accepts
  the result only if it matches `^[^\s@]+@[^\s@]+\.[^\s@]+$`. `IsSpace` is the
  exact set of code points that both `trim` and the class `\s` use
  (ECMAScript's WhiteSpace and LineTerminator). The pattern appears twice:
  `MatchesPattern` follows the regular expression (three `[^\s@]+` words
  around an `@` and a `.`), and `WellShaped` states the shape character by
  character. `PatternIffWellShaped` proves the two agree.
- `Waitlist` (waitlist.dfy) models the handler, which is imperative. `Response`
  is a class with `headers`, `status` and `body` fields. Its `SetHeader` and
  `Send` methods stand for `res.setHeader` and `res.status(..).send/json`.
  Headers can be set only before the response is sent, and it is sent once,
  so the final headers are the headers the response was sent with. `Store` is
  a class whose `docs` map stands for the `waitlist` collection. Its `Set`
  method is the merge-write `doc(key).set(fields, { merge: true })`, and a
  `fails` flag says whether the store refuses the write. `SiteWaitlist` is
  the handler. It takes the clock reading `now` and the store's outcome
  `writeFails` as parameters.

The handler's outcomes:

- OPTIONS: 204 with an empty body.
- Any other method except POST: 405 `{error: "Method not allowed"}`.
- POST with an address `toEmail` rejects: 400 `{error: "Invalid email"}`.
- POST with a successful write: 200 `{ok: true, saved: true}`.
- POST with a failed write, or with a field whose string conversion throws:
  200 `{ok: true, saved: false}`.

Every path first sets the same three CORS headers. Only an accepted address
with a successful write changes the store.

Each write overwrites `createdAt` as well as `updatedAt`, so `createdAt` does
not keep the first signup time. The model reproduces this as written, and
`RepeatSignup` proves it.

## Model

| member | source | states |
|---|---|---|
| `Email.LowerChar` | firebase/functions/index.js:6 | Lower-casing maps each ASCII capital to its small letter and leaves every other character unchanged; so no capital remains and whitespace, `@` and `.` are neither created nor removed |
| `Email.SkipSpace` | firebase/functions/index.js:6 | The leading-whitespace cut of `trim`: everything skipped is whitespace, and what follows is not |
| `Email.SkipSpaceBack` | firebase/functions/index.js:6 | The trailing-whitespace cut of `trim`: everything dropped is whitespace, and the last kept character is not |
| `Email.TrimBounds` | firebase/functions/index.js:6 | `Trim(s)` is `s[lo..hi]`: everything before `lo` and from `hi` on is whitespace, and the result neither starts nor ends with whitespace |
| `Email.TrimsToUnique` | firebase/functions/index.js:6 | Those conditions determine the trimmed string uniquely |
| `Email.TrimEmptyIffAllSpace` | firebase/functions/index.js:6-7 | The trimmed string is empty exactly when the input is all whitespace |
| `Email.TrimFixesTrimmed` | firebase/functions/index.js:6 | A string that neither starts nor ends with whitespace is its own trim |
| `Email.LowerIdempotent` | firebase/functions/index.js:6 | Lower-casing twice is lower-casing once |
| `Email.TrimLowerCommute` | firebase/functions/index.js:6 | Trimming then lower-casing equals lower-casing then trimming |
| `Email.PatternIffWellShaped` | firebase/functions/index.js:8 | The regular expression accepts exactly the strings with no whitespace, one `@` with text before it, and a `.` after the `@` with text on both sides of it |
| `Email.ToEmail` | firebase/functions/index.js:5-10 | Returns an address exactly when the trimmed, lower-cased input is well shaped, and then that address is the trimmed, lower-cased input |
| `Email.ToEmailRejectsBlank` | firebase/functions/index.js:6-7 | A missing or falsy field, or one that is all whitespace, gives null |
| `Email.NormalizedFrom` | firebase/functions/index.js:6 | The normalised string is the input's slice from a fixed offset, lower-cased character by character, and every input character outside that slice is whitespace: normalising only drops outer whitespace and lower-cases |
| `Email.ToEmailRejectsWithoutAt` | firebase/functions/index.js:8-9 | An input without `@` gives null |
| `Email.ToEmailRejectsWithoutDotAfterAt` | firebase/functions/index.js:8-9 | An input with no `.` after any `@` gives null |
| `Email.ToEmailIdempotent` | firebase/functions/index.js:5-10 | An accepted address is accepted again, unchanged |
| `Email.ToEmailMixedCaseExample` | firebase/functions/index.js:5-10 | `"  Foo@Bar.COM "` normalises to `"foo@bar.com"` |
| `Email.ToEmailNoAtExample` | firebase/functions/index.js:5-10 | `"not-an-email"` gives null |
| `Waitlist.MergeWrite` | firebase/functions/index.js:34-42 | A merge-write leaves one document under the key. The written fields take the new values, the document's other fields are kept, no other field appears, and every other document is unchanged |
| `Waitlist.Store.Set` | firebase/functions/index.js:34-42 | A successful write is the merge-write; a refused write leaves the collection unchanged |
| `Waitlist.Response.SetHeader` | firebase/functions/index.js:14-16 | Sets one header on an unsent response and changes nothing else |
| `Waitlist.Response.Send` | firebase/functions/index.js:17-51 | Fixes the status and body once, keeping the headers |
| `Waitlist.SiteWaitlist` | firebase/functions/index.js:12-52 | CORS headers on every path. OPTIONS gives 204 with an empty body. Other non-POST methods give 405. A rejected address gives 400. Otherwise the answer is 200 with `saved` equal to whether the write succeeded. POST gives only 200 or 400. The store changes only by the signup merge-write under the normalised address |
| `Waitlist.SignupDocument` | firebase/functions/index.js:34-43 | After a signup there is one document under the address. It holds the address, source `howdy-site` and both timestamps equal to `now`, keeps its other fields, and no other document changes |
| `Waitlist.RepeatSignup` | firebase/functions/index.js:34-42 | Two signups with one address equal a single signup at the second clock reading. One document remains, its `updatedAt` is the second reading (so it moves forward whenever the clock does), and `createdAt` is overwritten too |

## Left out

- Lower-casing covers ASCII letters only. `toLowerCase` also maps other
  letters, and for some of them it changes the string's length. The
  accept/reject decision is still the same: no whitespace character, `@` or
  `.` has a lower-case mapping, no other character lower-cases to a string
  that contains one of them, and no character lower-cases to nothing. But the
  normalised address is also the document key, so addresses that full
  lower-casing folds together (U+212A KELVIN SIGN and `k`, say) share one
  document in the program and get two in the model.
- Strings are sequences of Unicode scalar values, while JavaScript uses UTF-16
  code units. All whitespace code points are in the Basic Multilingual Plane,
  so trimming and `\s` are unaffected.
- `String(input || '')` on non-string values is not computed. The field is
  either missing/falsy, a value with a given string form, or a value whose
  conversion throws. `Waitlist.EmailField` lists the three cases.
- The outer `catch` is modelled only for a conversion of the field that
  throws. Exceptions raised by the response object itself are not modelled.
- `Waitlist.SiteWaitlist`: the two `Date.now()` calls are modelled as one
  reading `now`. In the source they are separate calls, so `createdAt` can be
  a millisecond later than `updatedAt`.
- `Waitlist.Store.Set`: document keys are opaque strings. Firestore reads a
  `/` in `doc(email)` as a path separator, and the pattern accepts `/`. The
  address's segments follow `waitlist`, and a document path needs an even
  number of parts. So an address with an even number of `/`-separated
  segments (`a/b@c.d`) is refused by the client (the program answers
  `saved:false`), one with an odd number of three or more (`a/b/c@d.e`) is
  written to a nested document, and outer `/` may be dropped so that the
  write lands on another address's document. None of this is modelled. A
  failed write is also assumed to have had no effect, although a `set` that
  throws after the commit (a deadline exceeded, say) may have been applied.
- `Waitlist.Response.Send`: only the payload is recorded. The headers that
  Express derives from the payload when sending (`Content-Type`,
  `Content-Length`, `ETag`, and the removal of content headers on a 204) are
  not added to `headers`. So `SiteWaitlist`'s final header map is the request's
  starting headers plus the three CORS headers, where the program's response
  carries those three among others.
- Firebase initialisation and the Firestore client are not modelled.
  `Store` and its `fails` flag replace them. Only top-level, scalar field
  values are modelled, so nested-map merging is not.
- Console logging is a side channel with no effect on the response.
- `async`/`await` and concurrent invocations on one key are not modelled.
  Each request runs on its own, in sequence.
