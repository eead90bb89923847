# Support mailbox: user, member and GitHub-link logic in Dafny

This project models the pure decision logic of a customer-support mailbox web
application:

- the display-name and admin helpers used across the application;
- how user profiles and their mailbox access are defaulted, merged and written;
- the per-member reply statistics of a mailbox;
- the GitHub App installation callback;
- the organization procedures that list and invite members.

Every database read is an input. `auth.users` is a sequence of `AuthUser`
rows. `userProfiles` is a map from user id to `Profile`. `mailboxes` is a
sequence of `Mailbox` rows. Conversations are a map from conversation id to
mailbox id, and messages are a sequence of `Message` rows with integer
timestamps. Every write is returned as the new table. Calls to the
authentication provider and to GitHub are inputs carrying their outcome,
including a thrown error. Nullable columns and optional arguments are
`Option`s, and a thrown error is a `Result.Failure`.

Modules:

- `Wrappers`: `Option` and `Result`.
- `Js`: JavaScript truthiness (`a || b` against `a ?? b`), `String.prototype.trim`
  with the ECMAScript whitespace set, and `split(" ")[0]`.
- `Schema`: the rows, the `UserRole` enumeration, the users-profiles left join,
  and `UPDATE userProfiles ... WHERE id = ... RETURNING` on the profiles map.
  An update whose row is missing matches nothing and writes nothing.
- `AuthUtils`: lib/auth/authUtils.ts.
- `UserData`: lib/data/user.ts.
- `Stats`: lib/data/stats.ts.
- `GithubCallback`: app/api/connect/github/callback/route.ts.
- `Organization`: trpc/router/organization.ts.

Details of the code that the model keeps:

- The GitHub callback has seven exits: no session; no (or an empty) stored
  mailbox slug; no mailbox with that slug; no (or an empty) installation id;
  an empty repository list; a listing or write that throws; and success.
- `getFullName` falls back with `??`, so an empty email is returned as the
  name. Only a null email falls through to the id.
- `addUser` writes the permissions first, then the display name and inviter.
- `getMemberStats` sorts with JavaScript's `Array.prototype.sort`. That sort
  is stable, and the comparator `b.replyCount - a.replyCount` is consistent.
  So users with equal counts keep their order in the users query.
  `Stats.StableSortIsUnique` shows that this pins the output down exactly.
- The reduce in `getMemberStats` skips every falsy author, so a user whose
  id is the empty string gets a count of 0 even when it has replies.

## Model

| member | source | states |
|---|---|---|
| `Js.Trim` | lib/auth/authUtils.ts:17-18 | `trim` gives a slice of the input with only whitespace cut off at either end; the result starts and ends with non-whitespace; it is empty exactly when the input is blank |
| `Js.TrimIdempotent` | lib/auth/authUtils.ts:18 | trimming an already trimmed name changes nothing |
| `Js.FirstToken` | lib/auth/authUtils.ts:24 | `split(" ")[0]` is the prefix before the first space: a prefix with no space, followed by a space when it is shorter than the input |
| `AuthUtils.HasDisplayName` | lib/auth/authUtils.ts:6-13 | true iff a profile exists whose display name has a non-whitespace character; the user argument plays no part |
| `AuthUtils.FullName` | lib/auth/authUtils.ts:15-21 | a non-blank profile name comes back trimmed and non-empty; otherwise the email whenever it is not null, even "", and the id only for a null email |
| `AuthUtils.FirstName` | lib/auth/authUtils.ts:23-25 | a prefix of the full name with no space, equal to the full name when that has no space |
| `AuthUtils.DisplayNameFromEnhanced` | lib/auth/authUtils.ts:28-30 | the trimmed display name if not blank, else a non-empty email, else the id; an empty email falls through to the id |
| `AuthUtils.IsAdminUser` | lib/auth/authUtils.ts:33-35 | true iff the permissions are exactly "admin" |
| `AuthUtils.FullNameVersusEnhanced` | lib/auth/authUtils.ts:15-30 | the two name chains agree on a user and its joined profile, except when there is no usable name and the email is "": then one gives "" and the other the id |
| `Schema.ParseRole` | lib/data/user.ts:10-16 | role names and roles are inverse: a parsed role prints back as the input, and a string no role prints as parses to nothing |
| `Schema.LeftJoin` | lib/data/user.ts:89-98 | the users-profiles join gives one row per user, in order; the profile columns are taken from the user's profile, or are all absent without one |
| `Schema.UpdateProfile` | lib/data/user.ts:159-163 | an update of a missing row writes nothing and returns no row; otherwise exactly that row is replaced by the patched row, which is returned |
| `UserData.IsAdmin` | lib/data/user.ts:37 | true iff a profile is given and its permissions are exactly "admin"; no profile gives false |
| `UserData.IsAdminAgreesWithJoin` | lib/data/user.ts:37 | the profile admin test and `isAdminUser` on the joined row agree for every user |
| `UserData.AddUserWrites` | lib/data/user.ts:70-85 | one or two writes, all to the new user's row; a write with permissions exists iff they are non-empty and not "member", and it carries them unchanged; the last write sets exactly display name and inviter; none sets access |
| `UserData.ApplyWrites` | lib/data/user.ts:72-85 | issuing the writes keeps the table's keys, and every row that no write targets keeps its value |
| `UserData.AddUserWritesEffect` | lib/data/user.ts:70-85 | after the plan, the new user's row has the display name and inviter, and the given permissions when they are non-empty and not "member"; everything else is kept |
| `UserData.AddUser` | lib/data/user.ts:56-86 | a provider error is rethrown and a missing user throws "Failed to create user", both with no write; on success only the new user's row changes, as in the write plan |
| `UserData.GetUsersWithMailboxAccess` | lib/data/user.ts:88-113 | one entry per user, in order, with id and email passed through; without a profile the entry is name "", role "afk", no keywords, permissions "member"; with one, the stored access is kept or defaults to "afk" and no keywords, missing permissions read "member", and a missing or empty name reads "" |
| `UserData.ListedRolesAreValid` | lib/data/user.ts:100-108 | every listed role is a role name whenever every stored role is |
| `UserData.UpdateUserMailboxData` | lib/data/user.ts:115-175 | an unknown user throws "User not found" and a missing profile row throws "Failed to update user profile", neither writing; otherwise only that row changes. The display name changes only when given. When the user and its profile row exist, the update succeeds. The access changes only when a role or keywords are given: each given field replaces the current one, which defaults to "afk" and no keywords. Permissions never change. The returned view has the user's email, the new name or else the previous name or "", the stored role or "afk", the stored keywords or none, and the old permissions or "member" |
| `UserData.UpdatedViewMatchesListing` | lib/data/user.ts:165-174 | when no empty string is involved, the returned view equals the user's entry in `getUsersWithMailboxAccess` after the write |
| `UserData.UpdatedViewMatchesRow` | lib/data/user.ts:167-174 | the field-by-field agreement behind the previous row, for one user |
| `UserData.ClearedNameShowsPreviousName` | lib/data/user.ts:147-169 | setting the name to "" stores "" but the returned view shows the previous name |
| `Stats.CountedMessages` | lib/data/stats.ts:44-58 | a message is counted iff its conversation is in the mailbox, its role is "staff", its author is one of the users, and its time is within each supplied inclusive bound |
| `Stats.CountOf` | lib/data/stats.ts:47 | an author's count is at most the number of messages, and positive iff the author wrote one of them |
| `Stats.Aggregate` | lib/data/stats.ts:44-59 | grouping gives one row per distinct author, with a positive count equal to that author's number of messages; an author has a row iff its count is positive |
| `Stats.ReplyCounts` | lib/data/stats.ts:61-64 | the reduce keys exactly the rows whose author is neither null nor ""; such a row's count is stored under its author unless a later row has the same author |
| `Stats.AggregateThenReduce` | lib/data/stats.ts:44-76 | for every non-empty author, the count looked up after grouping and reducing, or 0 if absent, is that author's number of counted messages; the empty id always gets 0 |
| `Stats.RowIds` | lib/data/stats.ts:34 | the member id list is the users' ids, one per row, in order |
| `Stats.Merge` | lib/data/stats.ts:66-79 | the merge maps each user row to one entry, in order |
| `Stats.Insert` | lib/data/stats.ts:80 | inserting into a sorted list keeps it sorted by non-increasing count and adds exactly the new entry |
| `Stats.InsertStable` | lib/data/stats.ts:80 | the inserted entry goes before all entries of its own count; the order of the others is kept |
| `Stats.SortByReplyCount` | lib/data/stats.ts:80 | the sort is a permutation, sorted by non-increasing count, and entries with equal counts keep their relative order |
| `Stats.StableSortIsUnique` | lib/data/stats.ts:80 | two lists sorted by count, with the same entries of each count in the same order, are equal, so the stable sort result is unique |
| `Stats.MemberStats` | lib/data/stats.ts:23-81 | exactly one entry per user; the output is a permutation of each user's expected entry: id, email, `displayName \|\| email \|\| id` untrimmed, its staff replies in the mailbox within the range (0 for an empty id), and its role or "afk" when the access or its role is missing or empty. The output is sorted by non-increasing count, and ties stay in user order |
| `Stats.MergeIsExpected` | lib/data/stats.ts:66-79 | the unsorted merge is exactly the expected entry of each user, in user order |
| `Stats.StatOfIsExpected` | lib/data/stats.ts:67-78 | one user's merged entry is its expected entry once its looked-up count is its expected count |
| `Stats.CountedByMember` | lib/data/stats.ts:51-58 | for a member, the counted messages by it are its staff replies in the mailbox within the range |
| `Stats.TotalReplies` | lib/data/stats.ts:44-80 | when user ids are distinct, the reply counts plus the counted messages by the empty id add up to the number of counted messages |
| `Stats.RepliesByAppend` | lib/data/stats.ts:44-59 | reply counts over two message logs joined end to end add up |
| `Stats.AddedReplies` | lib/data/stats.ts:44-59 | adding N staff replies in the mailbox and range by one author raises that author's count by N and leaves every other count unchanged |
| `Stats.NoRepliesMeansZero` | lib/data/stats.ts:44-76 | a mailbox without staff replies in the range gives every member a count of 0 |
| `GithubCallback.MailboxBySlug` | app/api/connect/github/callback/route.ts:30-31 | the mailbox found has the slug; no mailbox is found only when no mailbox has it |
| `GithubCallback.SetInstallation` | app/api/connect/github/callback/route.ts:42 | the write sets the installation id on the rows with the mailbox's id and leaves every other row unchanged |
| `GithubCallback.Callback` | app/api/connect/github/callback/route.ts:12-49 | no session redirects to login before anything else. A missing or empty slug, or no mailbox with that slug, redirects to the mailbox list. The integrations redirect carries the stored slug of an existing mailbox. With a session, a non-empty stored slug and a mailbox with it, the redirect is always to that mailbox's integrations page. Its flag is success iff the installation id is present and non-empty, the listing returns at least one repository and the write succeeds; otherwise it is error. On success the installation id is written to that mailbox, and nothing is written on any other exit |
| `GithubCallback.SuccessAfterWrite` | app/api/connect/github/callback/route.ts:37-44 | a success redirect means the mailbox with the stored slug now holds the installation id and every mailbox with another id is unchanged |
| `GithubCallback.RedirectPathInjective` | app/api/connect/github/callback/route.ts:19-47 | when no slug contains `/`, two redirects with the same path are the same redirect: the page reached tells the exit, the mailbox and the result flag |
| `GithubCallback.PathShape` | app/api/connect/github/callback/route.ts:19-47 | the login, mailbox-list and integrations paths are told apart by their length and second character |
| `Organization.GetMembers` | trpc/router/organization.ts:11-26 | one entry per user, in order, with id and email passed through and display name `displayName \|\| email \|\| id` from the joined profile, untrimmed |
| `Organization.MemberNamesNonEmpty` | trpc/router/organization.ts:21-25 | a member's display name is empty only when its id is |
| `Organization.SingleUserWithProfileName` | tests/trpc/router/organization.test.ts:14-30 | a single user with profile name "Test User" is listed as exactly `[{id, "Test User", email}]` |
| `Organization.AddMember` | trpc/router/organization.ts:27-37 | inviting is `addUser` with the caller's id as inviter and the input's email, display name and permissions unchanged: it succeeds iff an account was created, writes nothing on failure, changes no other row, and gives the new row the caller as inviter, the input's name, and the input's permissions unless they are empty or "member" |
| `Organization.AddMemberWithoutPermissions` | trpc/router/organization.ts:32-36 | an invitation without permissions issues a single write and leaves the stored permissions as they were |

## Left out

- `findUserViaSlack`: an external Slack lookup followed by a single query.
- `getProfile`, `getEnhancedUser`: single cached queries with no logic of their own. Their row shape is `Schema.EnhancedUser`.
- React `cache` memoization: it has no effect on results within one request.
- SQL construction and the database engine. Query results are inputs, and rows come in user order, which the source does not fix.
- The rendering of `IN ${memberIds}` for an empty user list: with no users, the model counts nothing.
- UserData.UpdateUserMailboxData: an update with no display name, role or keywords sets no column. The ORM may reject that instead of running it. The model treats it as a write that changes nothing and returns the row.
- The `updatedAt` field of the access value: an access update stores `{role, keywords}` only and drops any stored `updatedAt`. The model's `Access` has no such field.
- The unused `mailboxId` argument of `updateUserMailboxData`.
- The `user_metadata` column: no modelled code reads it.
- Property-name edge cases of the JavaScript object used for reply counts, such as an id equal to `"__proto__"`: user ids are UUIDs.
- Supabase clients (`createClient`, `createAdminClient`, `createUser`): their outcome is an input. A session is a user or none. Account creation is an error, or data with a user or without one.
- GitHub `listRepositories`: its outcome is an input, either a thrown error or a repository count.
- The exception reporter: its development-only rethrow is not modelled, only the production path that redirects.
- `NextResponse`, `URL` and `getBaseUrl`: redirects are an enumeration, with paths relative to the base URL.
- Zod email validation of `addMember` input: the validator's pattern is outside this model. Validated input is assumed.
- The session gate of the procedures: it lives outside the modelled files.
- Concurrency: the two non-transactional profile writes of `addUser` and the two independent queries of `getMemberStats` are modelled as running alone.
- The hook that saves the last mailbox slug: it is outside the modelled core.
- `db/supabaseSchema/auth.ts` is represented only by the `Schema` datatypes.
- GithubCallback.Callback: the repository listing is an input that is not tied to the installation id, so the model does not state that the id passed to GitHub is the one stored.
- UserData.AddUser: the email address only goes to the provider, whose response is an input, so no contract mentions it.
