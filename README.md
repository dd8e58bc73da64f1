# betterauth: the repository's own decision logic, in Dafny

This project models the logic that the betterauth repository adds around
the better-auth library. That logic has three parts:

- **The display-name normaliser** `normalizeName` (lib/utils.ts), modelled in
  `utils.dfy` as four single-step string functions: trim, collapse whitespace
  runs to one space, strip characters outside `[a-zA-Z\s'-]`, and upper-case
  every `\b\w`. The signup domain allow-list `VALID_DOMAINS` is in the same
  file. The source builds that list with `push`, so it is a method, proved
  equal to the function `Domains` that the hook uses.
- **The route guard** in middleware.ts (`middleware.dfy`). It is a pure
  decision on the request path and on whether a non-empty session cookie is
  present.
- **The two hooks in the better-auth configuration** (lib/auth.ts, `auth.dfy`):
  - the before-hook on `/sign-up/email`, which gates the email domain and
    rewrites the name;
  - the user-creation hook, which promotes the emails listed in `ADMIN_EMAIL`
    to `ADMIN`.

  The same file holds the configured session lifetime, verification lifetime
  and minimum password length.

Support modules:

- `text.dfy` holds the ASCII parts of the JavaScript string library that the
  code relies on: `\s` and `\w`, `toUpperCase`, `startsWith`, and `split` with
  a one-character separator, together with its inverse `join`.
- `wrappers.dfy` holds `Option`.
- `utils_examples.dfy` evaluates `normalizeName` on concrete names.

Environment values are parameters:

- `isDev` stands for `process.env.NODE_ENV === "development"`.
- `adminEmail: Option<string>` stands for `process.env.ADMIN_EMAIL`. `None`
  means unset.
- The cookie found by `getSessionCookie` is an `Option<string>` field of the
  request.

Three consequences of the code as written:

- **The email domain** is `email.split("@")[1]`: the text between the first
  `@` and the next `@` (or the end), not the text after the last `@`. So
  `x@gmail.com@evil.org` is accepted (`Auth.SecondAtIgnored`).
- **The normaliser is not idempotent.** It strips characters after it has
  collapsed whitespace, so a removed character can leave a space behind:
  - `"1 a"` gives `" A"`, and normalising `" A"` again gives `"A"`
    (`UtilsExamples.NormalizeNameNotIdempotent`).
  - `"a 1 b"` gives `"A  B"` (`UtilsExamples.NormalizeNameDoubleSpace`).

  The fixed points of `NormalizeName` are exactly the names that satisfy
  `Utils.IsNormalName` (`Utils.NormalizeNameFixedPoint`).
- **An email without `@` is rejected.** Its domain is `undefined`, which is
  never on the list, even though `""` is (`Auth.SignUpWithoutAt`). The `""`
  entry is reached by an email whose first `@` is followed by another `@` or
  by the end, such as `bob@` or `bob@@evil.org` (`Auth.EmptyDomainAllowed`,
  `Auth.DoubleAtAllowed`).

## Model

| member | source | states |
|---|---|---|
| Text.IsSpace | lib/utils.ts:13 | `\s` restricted to ASCII: space, tab, line feed, vertical tab, form feed, carriage return |
| Text.IsWordChar | lib/utils.ts:15 | `\w`: ASCII letters, digits and `_` |
| Text.StartsWith | middleware.ts:12 | `startsWith`: the prefix relation on strings |
| Text.Join | lib/auth.ts:86 | the source never calls `join`; this one-separator `join` is the reference inverse of the `split(";")` on this line, used in `Auth.AdminEmailsExact` to describe `ADMIN_EMAIL` settings (see `Text.JoinSplit` and `Text.SplitJoin`) |
| Text.ToUpper | lib/utils.ts:15 | lower-case ASCII letters map to their upper-case counterparts (32 code points lower); every other character is unchanged; being a letter is preserved |
| Text.TakeUntil | lib/auth.ts:60 | the result is a prefix of the input without the separator, ending at the input's end or at a separator |
| Text.TakeUntilPrefix | lib/auth.ts:60 | a separator-free text followed by the end or a separator is exactly what is taken up to the separator |
| Text.Split | lib/auth.ts:60 | `split` with one separator yields at least one piece and no piece contains the separator |
| Text.JoinSplit | lib/auth.ts:86 | joining the pieces of a split gives back the original string |
| Text.SplitAfterFirst | lib/auth.ts:60 | splitting `head sep rest` with a separator-free head gives the head followed by the pieces of the rest |
| Text.SplitFirstPiece | lib/auth.ts:60 | the first piece is the text before the first separator |
| Text.SplitSingle | lib/auth.ts:60 | there is exactly one piece iff the separator does not occur, and that piece is then the whole string |
| Text.SplitJoin | lib/auth.ts:86 | splitting the join of one or more separator-free pieces gives the pieces back |
| Utils.TrimStart | lib/utils.ts:12 | the result is a suffix of the input; everything removed is whitespace; the result does not start with whitespace |
| Utils.TrimEnd | lib/utils.ts:12 | the result is a prefix of the input; everything removed is whitespace; the result does not end with whitespace |
| Utils.Trim | lib/utils.ts:12 | `trim` returns a contiguous slice of the input; whitespace only is removed on both sides; the ends of the result are not whitespace |
| Utils.CollapseStep | lib/utils.ts:13 | one character contributes at most one character to the collapsed text |
| Utils.CollapseFrom | lib/utils.ts:13 | the collapse scan never lengthens its input |
| Utils.Collapse | lib/utils.ts:13 | collapsing never lengthens the text and is empty exactly when the input is |
| Utils.Kept | lib/utils.ts:14 | the class `[a-zA-Z\s'-]` |
| Utils.Strip | lib/utils.ts:14 | stripping never lengthens the text |
| Utils.IsWordStart | lib/utils.ts:15 | where `\b\w` matches: a word character at index 0 or after a non-word character |
| Utils.CapitalizeFrom | lib/utils.ts:15 | the capitalisation scan preserves length |
| Utils.Capitalize | lib/utils.ts:15 | capitalisation preserves length |
| Utils.Cleaned | lib/utils.ts:12-14 | the first three steps never lengthen the name |
| Utils.NormalizeName | lib/utils.ts:10-16 | the normalised name is never longer than the input |
| Utils.Domains | lib/utils.ts:21-25 | the allow-list the hook checks: the production list, followed by `example.com` in development |
| Utils.ValidDomains | lib/utils.ts:20-27 | the list built by pushing onto the production list equals `Domains(isDev)`, has 6 entries in development and 5 otherwise, and contains `example.com` exactly in development |
| Utils.DomainsMembership | lib/utils.ts:21-25 | a domain is allowed iff it is one of the four providers or `""`, or it is `example.com` in development |
| Utils.DomainsPrefix | lib/utils.ts:21-26 | the production list is a prefix of the development list; their lengths are 5 and 6 |
| Utils.TrimStartBlankIff | lib/utils.ts:12 | trimming the start leaves nothing exactly when the input is all whitespace |
| Utils.CollapseShape | lib/utils.ts:13 | after collapsing, the only whitespace is a single space with no two adjacent; the result starts with a space iff a whitespace run opens it; it ends with a space iff the input ends in whitespace |
| Utils.CollapseAround | lib/utils.ts:13 | a non-whitespace character splits the collapse into the collapse of its two sides |
| Utils.CollapseInsideRun | lib/utils.ts:13 | whitespace that continues a run contributes nothing |
| Utils.CollapseRun | lib/utils.ts:13 | a non-empty whitespace run collapses to exactly one space |
| Utils.CollapseWellSpacedFrom | lib/utils.ts:13 | text whose only whitespace is single spaces is left unchanged by the scan |
| Utils.CollapseWellSpaced | lib/utils.ts:13 | collapsing text whose only whitespace is single spaces changes nothing |
| Utils.CollapseShrinks | lib/utils.ts:13 | two adjacent whitespace characters make the collapsed text strictly shorter |
| Utils.StripChars | lib/utils.ts:14 | every character left by stripping comes from the input and is in `[a-zA-Z\s'-]` |
| Utils.StripAppend | lib/utils.ts:14 | stripping distributes over concatenation |
| Utils.StripAllKept | lib/utils.ts:14 | text made only of kept characters is unchanged by stripping |
| Utils.CapitalizeFromAt | lib/utils.ts:15 | each position of the scan is upper-cased at a `\b\w` start and unchanged otherwise |
| Utils.CapitalizeAt | lib/utils.ts:15 | a character is upper-cased exactly where `\b\w` matches and is unchanged otherwise |
| Utils.CleanedChars | lib/utils.ts:12-14 | after the first three steps only ASCII letters, spaces, apostrophes and hyphens remain; no tab or newline survives |
| Utils.NormalizeNameAt | lib/utils.ts:10-16 | the output has the length of the cleaned name; each character of it is upper-cased at a letter that starts the name or follows a non-letter, and is kept as it was otherwise, so inner letters keep their case |
| Utils.NormalizeNameChars | lib/utils.ts:13-14 | the output holds only ASCII letters, spaces, apostrophes and hyphens |
| Utils.NormalizeNameWordStarts | lib/utils.ts:15 | every letter at index 0 or after a space, apostrophe or hyphen is upper-case in the output |
| Utils.NormalizeNameBlank | lib/utils.ts:11-15 | an empty or all-whitespace input normalises to `""` |
| Utils.TrimUnchanged | lib/utils.ts:12 | text without edge whitespace is unchanged by trimming |
| Utils.CapitalizeUnchanged | lib/utils.ts:15 | a name whose every letter start is upper-case is unchanged by capitalisation |
| Utils.CleanedUnchanged | lib/utils.ts:12-14 | a name of name characters with no edge spaces and no double spaces is unchanged by the first three steps |
| Utils.CleanedOfWellSpaced | lib/utils.ts:12-14 | on text without edge whitespace and with single spaces only, the first three steps amount to stripping |
| Utils.NormalFormIsFixed | lib/utils.ts:11-15 | a name that is already normal (name characters, single inner spaces, no edge spaces, capitalised words) is a fixed point |
| Utils.FixedIsNormalForm | lib/utils.ts:11-15 | every fixed point of the normaliser is such a normal name |
| Utils.NormalizeNameFixedPoint | lib/utils.ts:11-15 | a name is a fixed point of the normaliser iff it is a normal name |
| UtilsExamples.CleanedLeadingDigit | lib/utils.ts:12-14 | trimming and collapsing leave `"1 a"` unchanged, so only stripping acts on it |
| UtilsExamples.CleanedInnerDigit | lib/utils.ts:12-14 | trimming and collapsing leave `"a 1 b"` unchanged, so only stripping acts on it |
| UtilsExamples.CleanedApostropheHyphen | lib/utils.ts:12-14 | `"o'neil-smith"` passes the first three steps unchanged |
| UtilsExamples.CleanedMixedCase | lib/utils.ts:12-14 | `"mcDONALD"` passes the first three steps unchanged |
| UtilsExamples.CleanedDropsLeadingSpace | lib/utils.ts:12 | a leading whitespace character does not affect what the first three steps produce |
| UtilsExamples.CleanedLetterAfterSpace | lib/utils.ts:12-14 | one whitespace character followed by a letter is cleaned to the letter alone (so `" A"` cleans to `"A"`) |
| UtilsExamples.StripDigitFirst | lib/utils.ts:14 | stripping `"1 a"` leaves the space: `" a"` |
| UtilsExamples.StripDigitInside | lib/utils.ts:14 | stripping `"a 1 b"` leaves two spaces: `"a  b"` |
| UtilsExamples.CapitalizeShort | lib/utils.ts:15 | `" a"`, `"A"` and `"a  b"` capitalise to `" A"`, `"A"` and `"A  B"` |
| UtilsExamples.CapitalizeApostropheHyphen | lib/utils.ts:15 | `"o'neil-smith"` capitalises to `"O'Neil-Smith"` |
| UtilsExamples.CapitalizeMixedCase | lib/utils.ts:15 | `"mcDONALD"` capitalises to `"McDONALD"` |
| UtilsExamples.NormalizeNameNotIdempotent | lib/utils.ts:13-14 | `"1 a"` normalises to `" A"`, which normalises to `"A"`: the normaliser is not idempotent |
| UtilsExamples.NormalizeNameDoubleSpace | lib/utils.ts:13-14 | `"a 1 b"` normalises to `"A  B"`, with a double space |
| UtilsExamples.NormalizeNameApostropheHyphen | lib/utils.ts:15 | `"o'neil-smith"` normalises to `"O'Neil-Smith"` |
| UtilsExamples.NormalizeNameKeepsInnerCase | lib/utils.ts:15 | `"mcDONALD"` normalises to `"McDONALD"` |
| Middleware.IsProtectedRoute | middleware.ts:11 | `protectedRoutes.includes(pathname)`: exact equality with `/profile` or `/admin/dashboard` |
| Middleware.IsAuthRoute | middleware.ts:12 | `pathname.startsWith("/auth")` |
| Middleware.Decide | middleware.ts:4-21 | redirect to `/auth/login` iff the path is protected and the request is not logged in; redirect to `/profile` iff the path is an auth route and the request is logged in; pass through iff neither holds |
| Middleware.LoggedIn | middleware.ts:10 | `!!sessionCookies`: a cookie is found and its value is not the empty string |
| Middleware.Middleware | middleware.ts:6-21 | a request without a cookie, or with an empty one, to a protected route redirects to `/auth/login`; a request with a non-empty cookie to an auth route redirects to `/profile`; every other request passes |
| Middleware.RoutesDisjoint | middleware.ts:4-12 | no path is both protected and an auth route, so at most one redirect condition holds |
| Middleware.NoRedirectLoop | middleware.ts:14-19 | re-running the guard on a redirect target with the same cookie state passes through |
| Middleware.RedirectTargets | middleware.ts:14-19 | every redirect goes to `/auth/login` or `/profile`; the login page is an auth route and the profile page is protected |
| Middleware.ProtectionIsExact | middleware.ts:4-16 | without a cookie, `/profile` and `/admin/dashboard` redirect to login, while `/profile/edit`, `/admin` and `/admin/dashboard/` pass |
| Middleware.AuthRouteIsRawPrefix | middleware.ts:12-19 | with a cookie, `/authors`, `/auth` and `/auth/login` redirect to `/profile`; `/Auth` passes |
| Middleware.OtherCasesPass | middleware.ts:20 | a logged-in request to a protected path and a logged-out request to an auth path pass through |
| Middleware.CookieValueIgnored | middleware.ts:8-10 | any two non-empty cookie values decide alike, as a logged-in request; an empty cookie decides like no cookie, as a logged-out request |
| Middleware.EmptyCookieIsLoggedOut | middleware.ts:10-16 | with an empty cookie, `/profile` redirects to `/auth/login` and `/auth/login` is served |
| Auth.PasswordPolicy | lib/auth.ts:29 | the minimum password length is 6 |
| Auth.VerificationLifetime | lib/auth.ts:35 | the verification lifetime is 60·60 = 3600 s |
| Auth.SessionLifetime | lib/auth.ts:104 | the session lifetime is 30·24·60·60 = 2 592 000 s, 720 times the verification lifetime |
| Auth.DomainAllowed | lib/auth.ts:62 | `VALID_DOMAINS().includes(domain)`: the email has a domain and it is on the list for the environment |
| Auth.EmailDomain | lib/auth.ts:60 | the domain is missing exactly when the email has no `@`, and a present domain contains no `@` |
| Auth.FieldText | lib/auth.ts:59 | `String(ctx.body.email)` for a string field or a missing one: the field's text, or `"undefined"` when the field is absent |
| Auth.SignUpBefore | lib/auth.ts:57-80 | other paths pass through; a signup whose domain is not allowed is rejected with `BAD_REQUEST` and the invalid-domain message; an allowed signup without a name throws; otherwise the context is rewritten with the same path, other fields and body keys, and only `name` is replaced by its normalised form |
| Auth.EmailDomainAfterFirstAt | lib/auth.ts:60 | the domain of `local@rest` is the text of `rest` up to its first `@` |
| Auth.SignUpWithoutAt | lib/auth.ts:59-66 | a signup whose email has no `@`, or is missing, is rejected with `BAD_REQUEST` |
| Auth.SignUpGate | lib/auth.ts:58-66 | a signup with email `local@rest` is rejected iff the text of `rest` up to the next `@` is not on the allow-list |
| Auth.DomainAllowedSplit | lib/auth.ts:60-62 | an email `local@domain`, optionally followed by `@` and more, is allowed iff `domain` is on the list |
| Auth.SecondAtIgnored | lib/auth.ts:60-62 | `x@gmail.com@evil.org` is allowed |
| Auth.EmptyDomainAllowed | lib/auth.ts:60-62 | `bob@` is allowed through the `""` entry |
| Auth.DoubleAtAllowed | lib/auth.ts:60-62 | `bob@@evil.org` is allowed: its domain is the empty piece between the two `@` |
| Auth.DomainCaseSensitive | lib/auth.ts:60-62 | `bob@Gmail.com` is rejected: the comparison is case-sensitive |
| Auth.UnlistedDomainRejected | lib/auth.ts:60-62 | `bob@forbidden.org` is rejected |
| Auth.DevelopmentDomainOnlyInDevelopment | lib/auth.ts:60-62 | `bob@example.com` is allowed iff in development |
| Auth.SignUpNameIsNormalised | lib/auth.ts:68-77 | a rewritten signup's name holds only letters, spaces, apostrophes and hyphens, and every letter start is upper-case |
| Auth.AdminEmails | lib/auth.ts:86 | an unset `ADMIN_EMAIL` gives no entries, and no entry contains `;` |
| Auth.UserCreateBefore | lib/auth.ts:85-91 | email, name, verification flag and other fields are kept; a listed email gets role `ADMIN`; an unlisted user is returned unchanged |
| Auth.AdminUnsetPromotesNobody | lib/auth.ts:86-90 | with `ADMIN_EMAIL` unset every user passes unchanged |
| Auth.AdminEmailsExact | lib/auth.ts:86-90 | with `ADMIN_EMAIL` set to `;`-joined entries, exactly the users whose email equals an entry are promoted |
| Auth.AdminSemicolonNeverMatches | lib/auth.ts:86-90 | an email containing `;` is never promoted |
| Auth.AdminEntriesNotTrimmed | lib/auth.ts:86-90 | with `"a@x.com; b@y.com"`, `b@y.com` is not promoted while `a@x.com` and `" b@y.com"` are |
| Auth.AdminEmptySetting | lib/auth.ts:86-90 | an `ADMIN_EMAIL` that is set but empty promotes only the empty email |
| Auth.UserCreateBeforeIdempotent | lib/auth.ts:85-91 | applying the hook twice gives the same record as applying it once |

## Left out

- Session creation, validation and expiry, verification-token issue and consumption, password checks, social OAuth, and the admin plugin's `setRole` and permission evaluation. These are better-auth library code; this repository only passes them configuration values (lib/auth.ts:11-120). Only the three configured numbers are modelled.
- The autoSignIn, requireEmailVerification, sendOnSignUp and account-linking flags. They are configuration read by library code that is not part of this model.
- The Prisma adapter and the database (lib/auth.ts:12-14): persistence is external.
- `sendVerificationEmail` (lib/auth.ts:37-52): sending mail and rewriting the link's `callbackURL` through `URL` are side effects of foreign APIs.
- `process.env` and `getSessionCookie` are not modelled; their results are parameters (`isDev`, `adminEmail`, `Request.sessionCookie`).
- The middleware `matcher` (middleware.ts:23-26): which requests reach the guard is decided by Next.js path matching. The model decides every path it is given.
- Redirect URLs are modelled as paths only. Resolving them against `req.url` is left to the `URL` constructor.
- lib/permittions (`ac`, `roles`) is not part of this model, so the role-to-action table is not modelled.
- Client and UI code (lib/auth-client.ts and the components and pages) and the styling helper `cn` (lib/utils.ts:4-6) are presentation or wrappers over foreign libraries.
- Unicode: `\s`, `trim` and `toUpperCase` are modelled on ASCII only. A non-ASCII whitespace character such as U+00A0 is deleted by the strip step in the model, whereas the source turns it into a space (or trims it at an edge): `"a\u00A0b"` gives `"A B"` in the source and `"Ab"` in the model.
- `String(ctx.body.email)` (lib/auth.ts:59) is modelled for a string field and for a missing field (the text `"undefined"`) only. Body fields are strings in the model, so numbers, objects and a missing body are not represented.
- Auth.SignUpBefore: a name that is present but not a string, which `normalizeName` would also fail on, is not representable, because body fields are strings.
- Auth.UserData: the role before the hook runs is `Option<Role>`; what better-auth does with the returned record, such as its default role, is library behaviour.
