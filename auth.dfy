/**
 * lib/auth.ts: the two hooks this repository adds to its better-auth
 * configuration, and the lifetimes it configures.
 *
 * - The before-hook on `/sign-up/email` takes the text after the first `@` of
 *   the email, up to the next `@`, and rejects the request with `BAD_REQUEST`
 *   unless that exact string is on the domain allow-list; otherwise it passes
 *   the request on with only the body's `name` normalised.
 * - The database hook on user creation gives the role `ADMIN` to a user whose
 *   email equals one of the `;`-separated entries of `ADMIN_EMAIL`.
 *
 * Environment values are parameters: `isDev` for `NODE_ENV === "development"`,
 * `adminEmail` for `process.env.ADMIN_EMAIL` (`None` when it is unset).
 */
module Auth {
  import opened Wrappers
  import opened Text
  import Utils

  // ---------------------------------------------------------------------------
  // Configured constants (lib/auth.ts:29, 35, 104)
  // ---------------------------------------------------------------------------

  /** `session.expiresIn`, in seconds: thirty days. */
  const SessionExpiresIn: nat := 30 * 24 * 60 * 60

  /** `emailVerification.expiresIn`, in seconds: one hour. */
  const VerificationExpiresIn: nat := 60 * 60

  /** `emailAndPassword.minPasswordLength` */
  const MinPasswordLength: nat := 6

  /** The minimum password length (lib/auth.ts:29). */
  lemma PasswordPolicy()
    ensures MinPasswordLength == 6
  {
  }

  /** A verification link lives for one hour (lib/auth.ts:35). */
  lemma VerificationLifetime()
    ensures VerificationExpiresIn == 3600
  {
  }

  /** A session lives for thirty days, 720 verification lifetimes (lib/auth.ts:104). */
  lemma SessionLifetime()
    ensures SessionExpiresIn == 2592000
    ensures SessionExpiresIn == 720 * VerificationExpiresIn
  {
  }

  // ---------------------------------------------------------------------------
  // Signup domain gate (lib/auth.ts:57-80)
  // ---------------------------------------------------------------------------

  const SignUpEmailPath: string := "/sign-up/email"

  const InvalidDomainMessage: string := "Invalid domain. Please use a valid email."

  datatype ErrorCode = BAD_REQUEST

  /** The endpoint context the hook sees: the path, the request body as a map
      from field names to their string values, and the remaining fields of the
      context, which the hook copies without looking at them. */
  datatype HookContext = HookContext(path: string, body: map<string, string>, rest: map<string, string>)

  /** What the before-hook does with a request. */
  datatype BeforeOutcome =
    | PassThrough                              // returns nothing: the request goes on unchanged
    | Reject(code: ErrorCode, message: string) // throws an `APIError`
    | NameMissing                              // `normalizeName(undefined)` throws a `TypeError`
    | Rewrite(context: HookContext)            // returns `{ context }` with a new body

  /** `String(ctx.body.email)`: a missing field becomes the text `"undefined"`. */
  function FieldText(body: map<string, string>, field: string): string {
    if field in body then body[field] else "undefined"
  }

  /** `email.split("@")[1]`: the second piece of the split, `None` (`undefined`)
      when there is no `@`. */
  function EmailDomain(email: string): (d: Option<string>)
    ensures d == None <==> '@' !in email
    ensures d.Some? ==> '@' !in d.value
  {
    SplitSingle(email, '@');
    var pieces := Split(email, '@');
    if |pieces| >= 2 then Some(pieces[1]) else None
  }

  /** `VALID_DOMAINS().includes(domain)`; `undefined` is never on the list. */
  predicate DomainAllowed(email: string, isDev: bool) {
    var d := EmailDomain(email);
    d.Some? && d.value in Utils.Domains(isDev)
  }

  /** The before-hook (lib/auth.ts:57-80). */
  function SignUpBefore(ctx: HookContext, isDev: bool): (r: BeforeOutcome)
    ensures ctx.path != SignUpEmailPath <==> r == PassThrough
    ensures r.Reject? <==>
      ctx.path == SignUpEmailPath && !("email" in ctx.body && DomainAllowed(ctx.body["email"], isDev))
    ensures r.Reject? ==> r == Reject(BAD_REQUEST, InvalidDomainMessage)
    ensures r == NameMissing <==>
      && ctx.path == SignUpEmailPath
      && "email" in ctx.body && DomainAllowed(ctx.body["email"], isDev)
      && "name" !in ctx.body
    ensures r.Rewrite? ==>
      && r.context.path == ctx.path
      && r.context.rest == ctx.rest
      && r.context.body.Keys == ctx.body.Keys
      && (forall f :: f in ctx.body && f != "name" ==> r.context.body[f] == ctx.body[f])
      && r.context.body["name"] == Utils.NormalizeName(ctx.body["name"])
  {
    if ctx.path != SignUpEmailPath then PassThrough
    else
      var email := FieldText(ctx.body, "email");
      if !DomainAllowed(email, isDev) then
        Reject(BAD_REQUEST, InvalidDomainMessage)
      else if "name" !in ctx.body then NameMissing
      else
        var name := Utils.NormalizeName(ctx.body["name"]);
        Rewrite(ctx.(body := ctx.body["name" := name]))
  }

  /** The domain is the text after the first `@`, up to the next `@` or the end. */
  lemma EmailDomainAfterFirstAt(local: string, rest: string)
    requires '@' !in local
    ensures EmailDomain(local + "@" + rest) == Some(TakeUntil(rest, '@'))
  {
    SplitAfterFirst(local, '@', rest);
    SplitFirstPiece(rest, '@');
  }

  /** An email without `@`, or a body without an email, is rejected. */
  lemma SignUpWithoutAt(ctx: HookContext, isDev: bool)
    requires ctx.path == SignUpEmailPath
    requires "email" !in ctx.body || '@' !in ctx.body["email"]
    ensures SignUpBefore(ctx, isDev) == Reject(BAD_REQUEST, InvalidDomainMessage)
  {
  }

  /** For an email `local@rest` the gate admits exactly the emails whose text
      up to the second `@` is on the list: case matters, and whatever follows a
      second `@` is ignored. */
  lemma SignUpGate(ctx: HookContext, isDev: bool, local: string, rest: string)
    requires ctx.path == SignUpEmailPath
    requires '@' !in local && "email" in ctx.body && ctx.body["email"] == local + "@" + rest
    ensures SignUpBefore(ctx, isDev).Reject? <==> TakeUntil(rest, '@') !in Utils.Domains(isDev)
  {
    EmailDomainAfterFirstAt(local, rest);
  }

  /** The allow-list test on an email `local@domain`, possibly followed by a
      second `@` and more text. */
  lemma DomainAllowedSplit(email: string, local: string, domain: string, tail: string, isDev: bool)
    requires '@' !in local && '@' !in domain && (tail == [] || tail[0] == '@')
    requires email == local + "@" + (domain + tail)
    ensures DomainAllowed(email, isDev) <==> domain in Utils.Domains(isDev)
  {
    EmailDomainAfterFirstAt(local, domain + tail);
    TakeUntilPrefix(domain, '@', tail);
  }

  /** Whatever follows a second `@` is ignored. */
  lemma SecondAtIgnored(isDev: bool)
    ensures DomainAllowed("x@gmail.com@evil.org", isDev)
  {
    DomainAllowedSplit("x@gmail.com@evil.org", "x", "gmail.com", "@evil.org", isDev);
    Utils.DomainsMembership(isDev, "gmail.com");
  }

  /** An email whose first `@` is followed by the end passes, because `""` is on
      the list. */
  lemma EmptyDomainAllowed(isDev: bool)
    ensures DomainAllowed("bob@", isDev)
  {
    DomainAllowedSplit("bob@", "bob", "", "", isDev);
    Utils.DomainsMembership(isDev, "");
  }

  /** A second `@` straight after the first also gives the empty domain. */
  lemma DoubleAtAllowed(isDev: bool)
    ensures DomainAllowed("bob@@evil.org", isDev)
  {
    DomainAllowedSplit("bob@@evil.org", "bob", "", "@evil.org", isDev);
    Utils.DomainsMembership(isDev, "");
  }

  /** The comparison is case-sensitive. */
  lemma DomainCaseSensitive(isDev: bool)
    ensures !DomainAllowed("bob@Gmail.com", isDev)
  {
    DomainAllowedSplit("bob@Gmail.com", "bob", "Gmail.com", "", isDev);
    Utils.DomainsMembership(isDev, "Gmail.com");
  }

  /** A domain that is not on the list fails. */
  lemma UnlistedDomainRejected(isDev: bool)
    ensures !DomainAllowed("bob@forbidden.org", isDev)
  {
    DomainAllowedSplit("bob@forbidden.org", "bob", "forbidden.org", "", isDev);
    Utils.DomainsMembership(isDev, "forbidden.org");
  }

  /** `example.com` passes only in development. */
  lemma DevelopmentDomainOnlyInDevelopment(isDev: bool)
    ensures DomainAllowed("bob@example.com", isDev) <==> isDev
  {
    DomainAllowedSplit("bob@example.com", "bob", "example.com", "", isDev);
    Utils.DomainsMembership(isDev, "example.com");
  }

  /** A rewritten signup carries a name made of letters, spaces, apostrophes and
      hyphens only, with every word start capitalised. */
  lemma SignUpNameIsNormalised(ctx: HookContext, isDev: bool)
    requires SignUpBefore(ctx, isDev).Rewrite?
    ensures var name := SignUpBefore(ctx, isDev).context.body["name"];
      && (forall k :: 0 <= k < |name| ==> Utils.IsNameChar(name[k]))
      && (forall k :: 0 <= k < |name| && Utils.IsLetterStart(name, k) ==> IsUpper(name[k]))
  {
    Utils.NormalizeNameChars(ctx.body["name"]);
    Utils.NormalizeNameWordStarts(ctx.body["name"]);
  }

  // ---------------------------------------------------------------------------
  // Admin promotion on user creation (lib/auth.ts:85-91)
  // ---------------------------------------------------------------------------

  datatype Role = USER | ADMIN

  /** The user record handed to the hook; `role` is `None` while no role has
      been set on it. */
  datatype UserData = UserData(
    email: string,
    name: string,
    emailVerified: bool,
    role: Option<Role>,
    rest: map<string, string>)

  /** `process.env.ADMIN_EMAIL?.split(";") ?? []` */
  function AdminEmails(adminEmail: Option<string>): (emails: seq<string>)
    ensures adminEmail == None ==> emails == []
    ensures forall k :: 0 <= k < |emails| ==> ';' !in emails[k]
  {
    match adminEmail
    case None => []
    case Some(v) => Split(v, ';')
  }

  /** `databaseHooks.user.create.before`: the `data` it returns. */
  function UserCreateBefore(user: UserData, adminEmail: Option<string>): (data: UserData)
    ensures data.email == user.email && data.name == user.name
    ensures data.emailVerified == user.emailVerified && data.rest == user.rest
    ensures user.email in AdminEmails(adminEmail) ==> data.role == Some(ADMIN)
    ensures user.email !in AdminEmails(adminEmail) ==> data == user
  {
    if user.email in AdminEmails(adminEmail) then user.(role := Some(ADMIN)) else user
  }

  /** With `ADMIN_EMAIL` unset nobody is promoted. */
  lemma AdminUnsetPromotesNobody(user: UserData)
    ensures UserCreateBefore(user, None) == user
  {
  }

  /** Setting `ADMIN_EMAIL` to entries joined by `;` promotes exactly the users
      whose email equals one of the entries. */
  lemma AdminEmailsExact(user: UserData, entries: seq<string>)
    requires |entries| >= 1
    requires forall k :: 0 <= k < |entries| ==> ';' !in entries[k]
    ensures UserCreateBefore(user, Some(Join(entries, ';'))) ==
      if user.email in entries then user.(role := Some(ADMIN)) else user
  {
    SplitJoin(entries, ';');
  }

  /** An email containing `;` can never match an entry. */
  lemma AdminSemicolonNeverMatches(user: UserData, adminEmail: Option<string>)
    requires ';' in user.email
    ensures UserCreateBefore(user, adminEmail) == user
  {
  }

  /** Entries are compared without trimming: after `"a@x.com; b@y.com"` the
      second entry is `" b@y.com"`, with the space. */
  lemma AdminEntriesNotTrimmed(user: UserData)
    ensures var setting := Some("a@x.com; b@y.com");
      && (user.email == "b@y.com" ==> UserCreateBefore(user, setting) == user)
      && (user.email == " b@y.com" ==> UserCreateBefore(user, setting).role == Some(ADMIN))
      && (user.email == "a@x.com" ==> UserCreateBefore(user, setting).role == Some(ADMIN))
  {
    var entries := ["a@x.com", " b@y.com"];
    assert Join(entries, ';') == "a@x.com; b@y.com";
    SplitJoin(entries, ';');
  }

  /** An `ADMIN_EMAIL` that is set but empty splits into one empty entry, which
      only an empty email matches. */
  lemma AdminEmptySetting(user: UserData)
    ensures UserCreateBefore(user, Some("")).role == Some(ADMIN) <==>
      user.email == "" || user.role == Some(ADMIN)
  {
  }

  /** Running the hook twice changes nothing more. */
  lemma UserCreateBeforeIdempotent(user: UserData, adminEmail: Option<string>)
    ensures UserCreateBefore(UserCreateBefore(user, adminEmail), adminEmail) ==
      UserCreateBefore(user, adminEmail)
  {
  }
}
