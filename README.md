# AU Connect: the store and its route handlers, in Dafny

AU Connect is a campus club and event site. Students sign up, set a major and
their interests, join clubs and register for events; admins create clubs and
events. The server side is a set of route handlers over a document store with
five collections: users, clubs, events, memberships (user ↔ club) and event
registrations (user ↔ event).

This project models that core:

- `records.dfy` (module `Records`): the five document schemas. It also models
  what the store's `create` does with them: required paths must be present,
  absent optional paths take the schema default, and each new document gets an
  id and a creation stamp from one clock.
- `responses.dfy` (modules `Responses`, `Foreign`): the responses the handlers
  send and the schema-validation issues. `Foreign` holds the library calls the
  model cannot see: the email-format check, password hashing and checking, and
  token signing. They are parameters of the model, collected in `Env`.
- `query.dfy` (module `Query`): `findOne` as the first match in insertion order,
  `deleteOne` as removal of that match, and key uniqueness.
- `ordering.dfy` (module `Ordering`): creation order (ids and stamps strictly
  increasing and below the clock), the newest-first listings and the listing by
  ascending date.
- `memberships.dfy`, `registrations.dfy`, `accounts.dfy`, `login.dfy` and
  `catalog.dfy`: one step function per route. A step function gives the
  handler's new collection and its response as a function of the old
  collection, the request and the clock. Lemmas about each state the
  properties of the route.
- `store.dfy` (module `Api`): class `Store`, which holds the five collections
  and the clock. Each handler is a method that updates the fields in place.
  Each mutating method is proved to leave exactly the state and response given
  by its step function, to change no other collection, and to keep
  `Store.Valid()`. `Valid()` requires:
  - creation order on every collection;
  - the required strings present on every stored document;
  - unique emails;
  - at most one membership per (userId, clubId);
  - at most one registration per (userId, eventId).
- `consistency.dfy` (module `Consistency`): what `Valid()` requires, stated
  once per collection with quantifiers and once for the whole store as
  recursive predicates that read one document at a time (the two are proved
  equivalent). One lemma per route step shows that the step keeps its
  collection consistent, and one shows that it keeps the whole store
  consistent.
- `setup_profile.dfy` and `auth_page.dfy`: the pure helpers of two pages.
  - On the profile-setup page: the interest toggle and the submit guard.
  - On the sign-in page: role normalisation, and what the login form does with
    the server's answer.

A request body is a record of `Option` fields, where `None` means the key is
absent or `undefined`. The store's `create` and the handlers' own `!x` checks
treat a `null` the same way; filters and updates do not, and `null` there is
not modelled. The schema checks of the register and login routes see only
absent keys and strings. For strings, `Blank` (absent or `""`) is both what
JavaScript treats as false and what the store rejects for a required String
path. A string's length is its length in UTF-16 code units
(`Accounts.Utf16Length`), as JavaScript and zod count it.

In these points the model keeps behaviour a reader might not expect:

- The store's rejection of a missing required field is caught by the handler
  and answered with status 500, not 400. The register route's schema failures
  are also 500.
- Neither join schema declares a unique index. Uniqueness of a pair is only
  checked before the create, so the invariant holds for sequential requests
  only.
- `interests` is a list, not a set. Toggling keeps it free of duplicates, but
  the update route stores whatever list it is sent.
- After a successful login, the sign-in page goes to "/admin" or "/dashboard"
  according to the role chosen on the page (the `role` URL parameter), not the
  role of the account. See `AuthPage.LandingIgnoresAccountRole`.
- The profile update answers with the whole updated document, including the
  stored password hash. The register and login routes return only id, name,
  email and role.
- An event's `clubId` is a plain string and is never checked against the clubs.
- The user schema's role default ("student") never applies through register,
  because that route's schema already requires a role.
- The membership schema's required-id check can never fire, because the route
  rejects missing ids itself first.
- The store drops a filter key or update key whose value is `undefined`. So a
  POST to /api/registrations without `userId` is refused with "Already
  registered." as soon as anyone is registered for the event, and a profile
  update without `major` or `interests` leaves that field as stored. Where
  dropping a key lets a request change someone else's document, the model
  records it under "Findings" and uses the corrected step.
- Login only reads the users. It is modelled as the function `Login.SignIn` of
  the user collection, so it cannot change the store.

## Model

| member | source | states |
|---|---|---|
| Records.ParseRole | src/models/User.ts:18-22 | a role string is accepted exactly when it is "admin" or "student", and the parsed role spells the same string |
| Records.NewUser | src/models/User.ts:5-32 | create succeeds iff name, email and password are present and non-empty; otherwise every missing path is named; the new user has the clock's id and stamp, the given fields, role defaulting to student, an empty major and an empty interest list |
| Records.NewClub | src/models/Club.ts:5-6 | create succeeds iff name is present; description defaults to "" |
| Records.NewEvent | src/models/Event.ts:5-10 | create succeeds iff title, date and clubId are present, and each missing one is named; description and location default to "", keywords to the empty list |
| Records.NewMembership | src/models/Membership.ts:5-13 | create succeeds iff both ids are present; the four detail strings default to ""; joinDate and createdAt are the creation time |
| Records.NewRegistration | src/models/EventRegistration.ts:5-18 | create succeeds iff both ids are present; registeredAt and createdAt are the creation time |
| Responses.IssueMessage | src/app/api/auth/login/route.ts:49-53 | every validation issue has a non-empty message |
| Responses.PublicView | src/app/api/auth/register/route.ts:40-45 | the user object of an auth response carries id, name, email and role of the stored user, and has no password field |
| Query.Find | src/app/api/memberships/route.ts:29 | findOne finds nothing iff no document has the key; otherwise it yields the first document that has it |
| Query.RemoveFirstEffect | src/app/api/memberships/route.ts:61 | deleteOne removes one document when one matches and none otherwise, removes only a matching one, and keeps every other document |
| Query.RemoveFirstKeepsOrder | src/app/api/memberships/route.ts:61 | deleteOne keeps the surviving documents in their order |
| Query.RemoveFirstClears | src/app/api/registrations/route.ts:51 | with unique keys, after deleteOne the key is absent and keys stay unique |
| Query.AppendKeepsUnique | src/app/api/memberships/route.ts:29-41 | inserting a document whose key is not yet present keeps keys unique, and the key is then present |
| Query.AppendThenRemove | src/app/api/registrations/route.ts:32-51 | deleting the key of a document just inserted with a fresh key restores the collection |
| Ordering.StampedAppend | src/models/Membership.ts:13-15 | inserting a document stamped with the current clock and then ticking the clock keeps creation order |
| Ordering.StampedRemove | src/app/api/memberships/route.ts:61 | deleting any one document keeps creation order |
| Ordering.StampedReplace | src/app/api/users/update/route.ts:11-15 | replacing a document by one with the same id and stamp keeps creation order |
| Ordering.NewestFirst | src/app/api/memberships/route.ts:8 | the listing has the same length, and its k-th entry is the k-th newest document |
| Ordering.NewestFirstPermutes | src/app/api/clubs/route.ts:8 | the newest-first listing holds exactly the stored documents |
| Ordering.NewestFirstDescending | src/app/api/memberships/route.ts:8 | over a collection in creation order, the newest-first listing is descending by createdAt (strictly, under the model's clock) and holds the same documents |
| Ordering.InsertPermutes | src/app/api/events/route.ts:8 | inserting into a sorted listing adds exactly the one document |
| Ordering.InsertAbove | src/app/api/events/route.ts:8 | insertion keeps a lower bound on the key |
| Ordering.InsertSorted | src/app/api/events/route.ts:8 | insertion keeps the listing ascending |
| Ordering.SortBySorted | src/app/api/events/route.ts:8 | the listing by date is ascending and holds exactly the stored events |
| Memberships.Draft | src/app/api/memberships/route.ts:34-41 | what the handler hands to `create`: the body's ids, and each of the four detail strings as given or "" when absent |
| Memberships.Join | src/app/api/memberships/route.ts:22-43 | missing ids give 400 "userId and clubId are required"; an existing pair gives 400 "Already joined"; rejections change nothing; success iff both ids are present and the pair is new, and it appends exactly one membership with the given ids, "" for absent details and the clock's stamps, answered with that membership |
| Memberships.Leave | src/app/api/memberships/route.ts:54-63 | missing ids give 400 and change nothing; otherwise the first membership of the pair is deleted and the answer is success either way |
| Memberships.JoinKeepsPairsUnique | src/app/api/memberships/route.ts:29-41 | a join keeps at most one membership per pair, after it the pair is held, and a second identical join is refused with "Already joined" |
| Memberships.LeaveRemovesPair | src/app/api/memberships/route.ts:61-63 | leaving removes at most one membership, only one of the pair, leaves all others, and the pair is no longer held |
| Memberships.JoinThenLeave | src/app/api/memberships/route.ts:34-61 | a successful join followed by a leave of the same pair restores the memberships |
| Registrations.Matches | src/app/api/registrations/route.ts:24 | the filter `{ userId, eventId }` with an absent key dropped: with both ids it matches exactly the pair, with one id every registration carrying that id, with none every registration |
| Registrations.Filter | src/app/api/registrations/route.ts:51 | the key `findOne` and `deleteOne` test against `true` is exactly the filter |
| Registrations.FilterIsPair | src/app/api/registrations/route.ts:24 | with both ids in the body, the filter finds exactly the registrations of that pair, and the same first one |
| Registrations.Register | src/app/api/registrations/route.ts:22-43 | a body some registration matches on the keys it carries, in particular an existing pair, gives 400 "Already registered."; otherwise a missing id gives 500 with the store's missing-path error naming exactly the missing ids; rejections change nothing; success iff both ids are present and the pair is new, and it appends exactly that registration |
| Registrations.UnregisterAsWritten | src/app/api/registrations/route.ts:49-53 | always success; deletes the first registration matching the keys the body carries; with both ids it is the corrected step |
| Registrations.UnregisterAsWrittenDeletesUnnamed | src/app/api/registrations/route.ts:51 | a body with only an event id, or with no id, deletes the first registration of that event or of the ledger, which the corrected step leaves in place |
| Registrations.Unregister | src/app/api/registrations/route.ts:49-53 | corrected step: always success; with both ids the first registration of the pair is deleted; a body without both ids deletes nothing |
| Registrations.RegisterKeepsPairsUnique | src/app/api/registrations/route.ts:24-35 | registering keeps at most one registration per pair, and afterwards the pair is registered |
| Registrations.UnregisterRemovesPair | src/app/api/registrations/route.ts:51-53 | cancelling removes at most one registration, only one of the pair, leaves all others, and the pair is no longer registered |
| Registrations.RegisterThenUnregister | src/app/api/registrations/route.ts:32-51 | a successful registration followed by a cancellation of the same pair restores the ledger |
| Accounts.Utf16Length | src/app/api/auth/register/route.ts:8-10 | a string's UTF-16 length lies between its character count and twice it, and equals the count iff no character is outside the Basic Multilingual Plane |
| Accounts.MinLength | src/app/api/auth/register/route.ts:8-10 | a string path has no issue iff it is present and at least n UTF-16 code units long; absent gives "Required", too short gives "too small" with the minimum |
| Accounts.EmailIssues | src/app/api/auth/register/route.ts:9 | the email has no issue iff it is present and passes the email check |
| Accounts.RoleIssues | src/app/api/auth/register/route.ts:11 | the role has no issue iff it is present and is "admin" or "student" |
| Accounts.RegisterIssues | src/app/api/auth/register/route.ts:7-12 | the register schema passes iff name has 2+ UTF-16 code units, the email passes the check, password has 6+ and the role is in the enum |
| Accounts.Register | src/app/api/auth/register/route.ts:19-46 | schema failures give 500 with the issues; a taken email gives 400 "Email already exists"; rejections change nothing; success iff the schema passes, the email is fresh, and neither the email nor the password's hash is "" (the real email check and hash never give ""); success appends exactly one user with the hash of the password, the given fields, empty major and interests, and answers with its public view |
| Accounts.RegisterFaultsOnlyOnBlank | src/app/api/auth/register/route.ts:30-35 | a schema-valid sign-up with a fresh email fails only when the email check accepts "" or the hash is "", and then with 500 naming exactly those paths of the store's required-path error, never the name |
| Accounts.RegisterKeepsEmailsUnique | src/app/api/auth/register/route.ts:21-35 | sequential sign-ups never give two users the same email |
| Accounts.FindUser | src/app/api/users/update/route.ts:11-12 | finds the user whose id is given, or reports that no user has it |
| Accounts.Updated | src/app/api/users/update/route.ts:13 | the update `{ major, interests }`: each field the body carries replaces the stored one, each it leaves out stays, every other field is kept, and an update carrying neither changes nothing |
| Accounts.FilterTarget | src/app/api/users/update/route.ts:11-15 | as written, a body without an id selects the first user, if there is one; with an id it selects that user |
| Accounts.UpdateProfileAsWritten | src/app/api/users/update/route.ts:11-20 | with an id it is the corrected step; without one the first user takes the fields the body carries and is answered |
| Accounts.UpdateProfileAsWrittenEditsFirstUser | src/app/api/users/update/route.ts:11-15 | a body with no id and a new major changes the first user as written, and changes no one under the corrected step |
| Accounts.UpdateProfile | src/app/api/users/update/route.ts:11-20 | corrected step: the user with the id takes the major and the interests the body carries and keeps the ones it leaves out, every other user is unchanged, and the answer carries the updated document; an absent or unknown id changes nothing and answers success with no user |
| Accounts.UpdateProfileOnlyNamedUser | src/app/api/users/update/route.ts:11-15 | only the user whose id the body carries can change |
| Accounts.UpdateProfileFields | src/app/api/users/update/route.ts:11-15 | the updated user has the submitted major and interests, keeps those the body leaves out, and keeps name, email, password, role, id and stamp |
| Accounts.UpdateProfileIdempotent | src/app/api/users/update/route.ts:11-15 | applying the same update twice leaves the same users as applying it once |
| Accounts.UpdateProfileKeepsKeys | src/app/api/users/update/route.ts:11-15 | the update changes no email, id or stamp |
| Login.LoginIssues | src/app/api/auth/login/route.ts:8-11 | the login schema passes iff the email passes the check and the password is non-empty; an absent or malformed email is the first issue |
| Login.FirstMessage | src/app/api/auth/login/route.ts:49-53 | the message is the first issue's, or "Invalid input" when there is none |
| Login.SignIn | src/app/api/auth/login/route.ts:18-54 | the answer is 200 iff a token is issued; every other answer is 400 or 401 and refuses; every 401 says "Invalid credentials" |
| Login.SignInRejectsMalformed | src/app/api/auth/login/route.ts:49-54 | input failing the schema gives 400 with the first issue's message |
| Login.SignInFailuresAlike | src/app/api/auth/login/route.ts:20-34 | an unknown email and a wrong password get the same status and body |
| Login.SignInSucceedsExactly | src/app/api/auth/login/route.ts:20-47 | with unique emails, login succeeds iff the input is well formed and the stored hash accepts the password; the token's claims are that user's id and role, and the user object has no password |
| Login.SignInUnknownEmail | src/app/api/auth/login/route.ts:20-26 | an email no user holds gives 401 "Invalid credentials" |
| Login.SignInAfterRegister | src/app/api/auth/login/route.ts:20-47 | when a password checks against its own hash, whoever has just signed up logs in with the same email and password and gets claims for the new account |
| Catalog.CreateClub | src/app/api/clubs/route.ts:18-28 | success iff a name is given; it appends exactly one club with that name, description "" when absent, and the clock's stamps, and answers with it; otherwise 500 naming the name path and nothing changes |
| Catalog.CreateEvent | src/app/api/events/route.ts:18-32 | success iff title, date and clubId are given; it appends exactly one event with them, "" for absent description and location, and the keywords if they form a list, else the empty list; otherwise 500 naming exactly the missing paths and nothing changes |
| SetupProfile.Without | src/app/setup-profile/page.tsx:38 | the filtered list lacks the value and keeps every other item with its count |
| SetupProfile.WithoutConcat | src/app/setup-profile/page.tsx:38 | filtering distributes over concatenation, so the kept items stay in order |
| SetupProfile.WithoutAbsent | src/app/setup-profile/page.tsx:38 | filtering out a value that is absent changes nothing |
| SetupProfile.WithoutDistinct | src/app/setup-profile/page.tsx:38 | filtering keeps a list free of duplicates |
| SetupProfile.Toggle | src/app/setup-profile/page.tsx:36-42 | toggling flips whether the value is in the list and changes no other item's membership |
| SetupProfile.ToggleRemovesAll | src/app/setup-profile/page.tsx:37-38 | toggling a present value removes every occurrence and keeps every other item's count |
| SetupProfile.ToggleAppends | src/app/setup-profile/page.tsx:39-40 | toggling an absent value appends it at the end |
| SetupProfile.ToggleTwice | src/app/setup-profile/page.tsx:37-40 | toggling an absent value twice gives back the original list |
| SetupProfile.ToggleKeepsDistinct | src/app/setup-profile/page.tsx:37-40 | a list without duplicates has none after a toggle |
| SetupProfile.Submit | src/app/setup-profile/page.tsx:44-60 | no request is sent iff the major is empty or no interest is selected; otherwise the request carries the user id, major and interests |
| SetupProfile.SubmitCompletesProfile | src/app/setup-profile/page.tsx:44-60 | a request the page lets through leaves the matching user with a non-empty major and at least one interest |
| AuthPage.NormalizeRole | src/app/auth/page.tsx:18-21 | "admin" gives admin; an absent parameter or any other value gives student |
| AuthPage.NormalizeRoleIdempotent | src/app/auth/page.tsx:20 | normalising an already normalised role returns it |
| AuthPage.Landing | src/app/auth/page.tsx:117 | admin goes to "/admin" and student to "/dashboard", and only they |
| AuthPage.ReplyOf | src/app/auth/page.tsx:103-116 | what the page reads from a login response: `res.ok` iff the status is 2xx; the refusal's message, or "Login successful"; a token iff the login succeeded, and then the signed one |
| AuthPage.AfterLogin | src/app/auth/page.tsx:109-119 | a failed request shows "Network/Server error"; a refused login shows the server message or "Login failed" and stores nothing; a successful one stores the token and goes to the landing page of the page's role |
| AuthPage.LoginRoundTrip | src/app/auth/page.tsx:109-119 | against the login route: success stores the signed token and lands by the page's role; a refusal shows the route's message |
| AuthPage.LandingIgnoresAccountRole | src/app/auth/page.tsx:117 | a successful login from the page opened with role=admin goes to "/admin" whatever the account's role |
| Consistency.Later | src/models/User.ts:34 | a clock that moves forward keeps all five collections consistent, since stamps stay below it; the same `timestamps: true` is at Club.ts:8, Event.ts:12, Membership.ts:15 and EventRegistration.ts:20 |
| Consistency.JoinKeepsInv | src/app/api/memberships/route.ts:29-41 | a join keeps the memberships in creation order below the advanced clock, with each pair at most once |
| Consistency.LeaveKeepsInv | src/app/api/memberships/route.ts:61 | a leave keeps the memberships in creation order with each pair at most once |
| Consistency.RegisterKeepsInv | src/app/api/registrations/route.ts:24-43 | a registration keeps the registrations in creation order below the advanced clock, with each pair at most once |
| Consistency.UnregisterKeepsInv | src/app/api/registrations/route.ts:51 | a cancellation keeps the registrations in creation order with each pair at most once |
| Consistency.SignUpKeepsInv | src/models/User.ts:5-17 | a sign-up keeps the users in creation order, each with name, email and password, and no two with the same email |
| Consistency.UpdateKeepsInv | src/app/api/users/update/route.ts:11-15 | a profile update keeps creation order, the required fields and unique emails |
| Consistency.CreateEventKeepsInv | src/app/api/events/route.ts:18-32 | creating an event keeps the events in creation order, each with a title and a club id |
| Consistency.CreateClubKeepsInv | src/app/api/clubs/route.ts:18-28 | creating a club keeps the clubs in creation order, each with a name |
| Consistency.ConsistentMeans | src/models/User.ts:3-35 | the whole-store predicate read one document at a time holds exactly when all five collection invariants hold: those of the users here and of the schemas in Club.ts, Event.ts, Membership.ts and EventRegistration.ts |
| Consistency.JoinConsistent | src/app/api/memberships/route.ts:22-43 | the store is consistent after a join, under a clock advanced by one on success and unchanged otherwise |
| Consistency.LeaveConsistent | src/app/api/memberships/route.ts:54-63 | the store is consistent after a leave |
| Consistency.RegisterConsistent | src/app/api/registrations/route.ts:22-43 | the store is consistent after a registration, under a clock advanced by one on success and unchanged otherwise |
| Consistency.UnregisterConsistent | src/app/api/registrations/route.ts:49-53 | the store is consistent after a cancellation |
| Consistency.SignUpConsistent | src/app/api/auth/register/route.ts:19-46 | the store is consistent after a sign-up, under a clock advanced by one on success and unchanged otherwise |
| Consistency.UpdateConsistent | src/app/api/users/update/route.ts:11-20 | the store is consistent after a profile update |
| Consistency.CreateEventConsistent | src/app/api/events/route.ts:18-32 | the store is consistent after creating an event, under a clock advanced by one on success and unchanged otherwise |
| Consistency.CreateClubConsistent | src/app/api/clubs/route.ts:18-28 | the store is consistent after creating a club, under a clock advanced by one on success and unchanged otherwise |
| Api.Store.ListMemberships | src/app/api/memberships/route.ts:8 | answers 200 with every membership, newest first by createdAt (strictly, under the model's clock) |
| Api.Store.JoinClub | src/app/api/memberships/route.ts:15-47 | the memberships and the answer are those of the join step, the clock ticks only on success, nothing else changes, and the store invariant, with pair uniqueness, is kept |
| Api.Store.LeaveClub | src/app/api/memberships/route.ts:49-67 | the memberships and the answer are those of the leave step; nothing else changes; the invariant is kept |
| Api.Store.ListRegistrations | src/app/api/registrations/route.ts:8-9 | answers 200 with every registration in stored order |
| Api.Store.RegisterForEvent | src/app/api/registrations/route.ts:19-44 | the registrations and the answer are those of the register step; the clock ticks only on success; nothing else changes; the invariant is kept |
| Api.Store.UnregisterFromEvent | src/app/api/registrations/route.ts:46-60 | the registrations and the answer are those of the corrected cancel step; nothing else changes; the invariant is kept |
| Api.Store.SignIn | src/app/api/auth/login/route.ts:13-56 | the answer is that of the login decision over the stored users, and the store is not changed |
| Api.Store.RegisterUser | src/app/api/auth/register/route.ts:14-53 | the users and the answer are those of the sign-up step; the clock ticks only on success; nothing else changes; the invariant, with unique emails, is kept |
| Api.Store.UpdateProfile | src/app/api/users/update/route.ts:5-27 | the users are updated in place as the corrected update step says; nothing else changes; the invariant is kept |
| Api.Store.ListEvents | src/app/api/events/route.ts:8 | answers 200 with every event in ascending date order |
| Api.Store.CreateEvent | src/app/api/events/route.ts:15-33 | the events and the answer are those of the create step; the clock ticks only on success; nothing else changes; the invariant is kept |
| Api.Store.ListClubs | src/app/api/clubs/route.ts:8 | answers 200 with every club, newest first by createdAt (strictly, under the model's clock) |
| Api.Store.CreateClub | src/app/api/clubs/route.ts:15-29 | the clubs and the answer are those of the create step; the clock ticks only on success; nothing else changes; the invariant is kept |

## Left out

- Database connection and I/O (`connectDB`, `req.json()`): failures there, and
  the 500 answers they cause, are not modelled. The GET handlers therefore
  always answer 200.
- HTTP framing: a response is a status plus a body variant. The JSON field
  names appear only in comments.
- Password hashing and checking and token signing are parameters (`Env`).
  Salting, cost factor, token expiry and the signing secret are not modelled.
  The one assumption made, that a password checks against its own hash, is
  the `HashChecks` requirement of `Login.SignInAfterRegister`.
- The email-format check of the schema library is a parameter. Its messages are
  modelled with the library's default texts. The full text of the register
  route's 500 error, a serialisation of all issues, is modelled as the issue
  list.
- Document ids and timestamps: one integer clock stands in for ObjectIds,
  `createdAt`, `joinDate` and `registeredAt`. `updatedAt` is not modelled.
- Casting errors for ids that are not valid ObjectIds are not modelled. Ids
  are natural numbers or absent.
- Registrations.Register, Registrations.UnregisterAsWritten and
  Accounts.UpdateProfile: a `null` id in a filter, or a `null` major or
  interests in an update, is not modelled. The store keeps a `null` key in a
  filter, where it matches only documents whose field is null or missing, and stores a
  `null` update value. The model reads `null` as an absent key.
- Accounts.Register: the branch where `create` rejects a blank email or
  password hash is reachable only through the abstract email check and hash
  (`Env`). The real ones never give "", so every schema-valid sign-up with a
  fresh email succeeds; `Accounts.RegisterFaultsOnlyOnBlank` states the
  branch.
- Login.LoginIssues and Accounts.RegisterIssues: a `null` field or a value of
  the wrong JSON type (a number as a name, say) is not modelled; the schema
  library reports it as "Expected string, received null" (or the type
  received), not "Required". Request fields are either absent or of the
  schema's type. The one exception is `keywords`, whose "not a list" case is
  modelled.
- Dates are integers. Date parsing is not modelled.
- Concurrency: the check-then-create of both join routes and of register is not
  atomic. All uniqueness results hold for sequential requests only. The unique
  index on email would reject a racing duplicate; that path is not modelled.
- The pages' rendering, `localStorage`, router navigation, `alert`, and reading
  the user id from the stored token are not modelled. Only the toggle, the
  submit guard, role normalisation and the login form's decision are modelled.
- src/app/api/test/route.ts, a connectivity probe, is not part of this model.
- Club and event pages and the routes under `[id]` are not part of this model.

## Findings

| source | as written | input that shows it | evidently intended | confidence | as-written member | corrected member |
|---|---|---|---|---|---|---|
| src/app/api/registrations/route.ts:49-51 | `deleteOne({ userId, eventId })` with the body's ids; the store drops an `undefined` key from the filter | DELETE with body `{ "eventId": E }` while user u1 holds a registration for E: u1's registration is deleted | only the requester's registration of the event is deleted; a body without both ids deletes nothing | not executed; follows the store library's documented dropping of `undefined` filter keys | Registrations.UnregisterAsWrittenDeletesUnnamed | Registrations.UnregisterRemovesPair |
| src/app/api/users/update/route.ts:9-15 | `findByIdAndUpdate(userId, …)` with the body's id; an `undefined` id becomes the empty filter | PUT with body `{ "major": "Physics" }` and no `userId`: the first stored user's major becomes "Physics" | only the user whose id is given is updated; a body without an id updates no one | not executed; follows the store library's documented dropping of `undefined` filter keys | Accounts.UpdateProfileAsWrittenEditsFirstUser | Accounts.UpdateProfileOnlyNamedUser |
