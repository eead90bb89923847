/** The rows the modelled code reads and writes: authentication users, user
    profiles, mailboxes, the left join of users with their profiles, and a
    single-table `UPDATE ... SET ... WHERE id = ... RETURNING` as a write on a
    map keyed by primary key. */
module Schema {
  import opened Wrappers

  /** The mailbox-reply role of a user (`UserRoles` in lib/data/user.ts). */
  datatype UserRole = Core | NonCore | Afk

  /** The string a role is stored as. */
  function RoleName(role: UserRole): string {
    match role
    case Core => "core"
    case NonCore => "nonCore"
    case Afk => "afk"
  }

  /** The role a stored string names, if any; the inverse of `RoleName`. */
  function ParseRole(s: string): (r: Option<UserRole>)
    ensures r.Some? ==> RoleName(r.value) == s
    ensures r.None? ==> forall role :: RoleName(role) != s
  {
    if s == "core" then Some(Core)
    else if s == "nonCore" then Some(NonCore)
    else if s == "afk" then Some(Afk)
    else None
  }

  /** A stored string is a valid role name. */
  predicate IsRoleName(s: string) {
    ParseRole(s).Some?
  }

  /** The `access` column: a role (stored free-form, as JSON) and the keywords
      used for reply routing. */
  datatype Access = Access(role: string, keywords: seq<string>)

  /** The access every user without a stored one is treated as having. */
  const DefaultAccess := Access(RoleName(Afk), [])

  /** A row of `auth.users`, restricted to the columns the code reads. */
  datatype AuthUser = AuthUser(id: string, email: Option<string>)

  /** A row of `userProfiles`; every nullable column is an `Option`. */
  datatype Profile = Profile(
    displayName: Option<string>,
    permissions: Option<string>,
    access: Option<Access>,
    lastMailboxSlug: Option<string>,
    inviterUserId: Option<string>)

  /** The `userProfiles` table keyed by its primary key, the user id. */
  type Profiles = map<string, Profile>

  /** A row of `mailboxes`, restricted to the columns the code reads. */
  datatype Mailbox = Mailbox(id: int, slug: string, githubInstallationId: Option<string>)

  /** The profile row of a user, if any. */
  function ProfileOf(profiles: Profiles, id: string): Option<Profile> {
    if id in profiles then Some(profiles[id]) else None
  }

  /** A user joined with its profile columns (`EnhancedUserData`); every
      profile column is `None` when the user has no profile row. */
  datatype EnhancedUser = EnhancedUser(
    id: string,
    email: Option<string>,
    displayName: Option<string>,
    permissions: Option<string>,
    access: Option<Access>)

  /** One user left-joined with the profiles table on `id`. */
  function Enhance(user: AuthUser, profiles: Profiles): (row: EnhancedUser)
    ensures row.id == user.id && row.email == user.email
    ensures user.id in profiles ==>
      && row.displayName == profiles[user.id].displayName
      && row.permissions == profiles[user.id].permissions
      && row.access == profiles[user.id].access
    ensures user.id !in profiles ==> row.displayName.None? && row.permissions.None? && row.access.None?
  {
    if user.id in profiles then
      var p := profiles[user.id];
      EnhancedUser(user.id, user.email, p.displayName, p.permissions, p.access)
    else
      EnhancedUser(user.id, user.email, None, None, None)
  }

  /** `authUsers LEFT JOIN userProfiles ON authUsers.id = userProfiles.id`:
      since `userProfiles.id` is a primary key, one row per user, taken in
      the order of `users`. */
  function LeftJoin(users: seq<AuthUser>, profiles: Profiles): (rows: seq<EnhancedUser>)
    ensures |rows| == |users|
    ensures forall i :: 0 <= i < |users| ==> rows[i] == Enhance(users[i], profiles)
  {
    seq(|users|, i requires 0 <= i < |users| => Enhance(users[i], profiles))
  }

  /** The first user with the given id (`WHERE authUsers.id = userId`; the id
      is the primary key, so there is at most one). */
  function FindUser(users: seq<AuthUser>, id: string): (r: Option<AuthUser>)
    ensures r.Some? <==> exists i :: 0 <= i < |users| && users[i].id == id
    ensures r.Some? ==> r.value in users && r.value.id == id
  {
    if users == [] then None
    else if users[0].id == id then Some(users[0])
    else FindUser(users[1..], id)
  }

  /** The column assignments of one `UPDATE userProfiles SET ...`: a `Some`
      field is assigned, a `None` field is left as it is. */
  datatype ProfilePatch = ProfilePatch(
    displayName: Option<string>,
    permissions: Option<string>,
    access: Option<Access>,
    inviterUserId: Option<string>)

  const EmptyPatch := ProfilePatch(None, None, None, None)

  /** A profile with the assigned columns of `patch` replaced. */
  function ApplyPatch(p: Profile, patch: ProfilePatch): (q: Profile)
    ensures q.displayName == (if patch.displayName.Some? then patch.displayName else p.displayName)
    ensures q.permissions == (if patch.permissions.Some? then patch.permissions else p.permissions)
    ensures q.access == (if patch.access.Some? then patch.access else p.access)
    ensures q.inviterUserId == (if patch.inviterUserId.Some? then patch.inviterUserId else p.inviterUserId)
    ensures q.lastMailboxSlug == p.lastMailboxSlug
  {
    Profile(
      if patch.displayName.Some? then patch.displayName else p.displayName,
      if patch.permissions.Some? then patch.permissions else p.permissions,
      if patch.access.Some? then patch.access else p.access,
      p.lastMailboxSlug,
      if patch.inviterUserId.Some? then patch.inviterUserId else p.inviterUserId)
  }

  /** The outcome of `UPDATE userProfiles SET patch WHERE id = id RETURNING *`:
      the new table, and the updated row if one matched. */
  datatype UpdateOutcome = UpdateOutcome(profiles: Profiles, returned: Option<Profile>)

  /** `UPDATE userProfiles SET patch WHERE id = id RETURNING *`: a missing row
      matches nothing and nothing is written; otherwise exactly that row
      changes and is returned. */
  function UpdateProfile(profiles: Profiles, id: string, patch: ProfilePatch): (r: UpdateOutcome)
    ensures id !in profiles ==> r.profiles == profiles && r.returned.None?
    ensures id in profiles ==> r.returned == Some(ApplyPatch(profiles[id], patch))
    ensures id in profiles ==> r.profiles == profiles[id := ApplyPatch(profiles[id], patch)]
  {
    if id in profiles then
      var q := ApplyPatch(profiles[id], patch);
      UpdateOutcome(profiles[id := q], Some(q))
    else
      UpdateOutcome(profiles, None)
  }
}
