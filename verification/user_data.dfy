/** The user data layer of lib/data/user.ts: the admin test on a profile, the
    profile writes that follow the creation of an invited user, the listing
    of users with their mailbox access, and the reconciliation of a user's
    display name and access with an update request. Database reads are the
    `users` sequence and the `profiles` table; every write is returned as
    the new `profiles` table. */
module UserData {
  import opened Wrappers
  import opened Js
  import opened Schema
  import AuthUtils

  /** A thrown error: one passed on from the authentication provider, or one
      the code raises with a message of its own. */
  datatype Error = ProviderError(message: string) | AppError(message: string)

  const FailedToCreateUser := "Failed to create user"
  const UserNotFound := "User not found"
  const FailedToUpdateProfile := "Failed to update user profile"

  /** The outcome of an operation that may throw, with the profiles table as
      the operation leaves it. */
  datatype Effect<T> = Effect(result: Result<T, Error>, profiles: Profiles)

  /** The stored permissions used when a user has none. */
  const DefaultPermissions := "member"

  // ---------------------------------------------------------------------------
  // isAdmin

  /** `isAdmin`: true iff a profile is given and its permissions are exactly
      "admin"; no profile means not an admin. */
  function IsAdmin(profile: Option<Profile>): (r: bool)
    ensures r <==> profile.Some? && profile.value.permissions == Some("admin")
    ensures profile.None? ==> !r
  {
    profile.Some? && profile.value.permissions.Some? && profile.value.permissions.value == "admin"
  }

  /** The profile-based and the joined-row-based admin tests agree on every
      user: `isAdmin(profile)` is `isAdminUser` of the user joined with that
      profile. */
  lemma IsAdminAgreesWithJoin(user: AuthUser, profiles: Profiles)
    ensures IsAdmin(ProfileOf(profiles, user.id)) == AuthUtils.IsAdminUser(Enhance(user, profiles))
  {
  }

  // ---------------------------------------------------------------------------
  // addUser

  /** What the provider's `createUser` call gives back: an error, or data whose
      user may be missing. */
  datatype CreateUserResponse = CreateFailed(message: string) | Created(user: Option<AuthUser>)

  /** One `UPDATE userProfiles SET patch WHERE id = userId`. */
  datatype ProfileWrite = ProfileWrite(userId: string, patch: ProfilePatch)

  /** Permissions are written only when given, non-empty, and not the default. */
  predicate WritesPermissions(permission: Option<string>) {
    Truthy(permission) && permission.value != DefaultPermissions
  }

  /** The profile writes `addUser` issues for a created user, in order: the
      permissions when they differ from the default, then the display name
      and inviter. Every write targets the created user's row. */
  function AddUserWrites(inviterUserId: string, displayName: string, permission: Option<string>,
                         newUserId: string): (w: seq<ProfileWrite>)
    ensures 1 <= |w| <= 2
    ensures forall i :: 0 <= i < |w| ==> w[i].userId == newUserId
    ensures (exists i :: 0 <= i < |w| && w[i].patch.permissions.Some?) <==> WritesPermissions(permission)
    ensures forall i :: 0 <= i < |w| && w[i].patch.permissions.Some? ==> w[i].patch.permissions == permission
    ensures w[|w| - 1].patch == ProfilePatch(Some(displayName), None, None, Some(inviterUserId))
    ensures forall i :: 0 <= i < |w| ==> w[i].patch.access.None?
  {
    var nameAndInviter := ProfileWrite(newUserId, ProfilePatch(Some(displayName), None, None, Some(inviterUserId)));
    if WritesPermissions(permission) then
      var w := [ProfileWrite(newUserId, ProfilePatch(None, permission, None, None)), nameAndInviter];
      assert w[0].patch.permissions.Some?;
      w
    else
      [nameAndInviter]
  }

  /** The profiles table after the writes, issued one after the other: the
      same keys, and a row no write targets keeps its value. */
  function ApplyWrites(profiles: Profiles, writes: seq<ProfileWrite>): (r: Profiles)
    ensures r.Keys == profiles.Keys
    ensures forall k :: k in profiles && (forall i :: 0 <= i < |writes| ==> writes[i].userId != k) ==>
      r[k] == profiles[k]
    decreases |writes|
  {
    if writes == [] then profiles
    else ApplyWrites(UpdateProfile(profiles, writes[0].userId, writes[0].patch).profiles, writes[1..])
  }

  /** `addUser`: `response` stands for the provider's account creation, which
      alone receives `emailAddress`. A provider error or a missing user throws
      and writes nothing. Otherwise only the new user's profile row changes:
      it gets the display name and inviter, and the permissions when they are
      non-empty and not "member". Without a profile row nothing is written. */
  function AddUser(inviterUserId: string, emailAddress: string, displayName: string,
                   permission: Option<string>, response: CreateUserResponse, profiles: Profiles): (r: Effect<()>)
    ensures response.CreateFailed? ==> r.result == Failure(ProviderError(response.message))
    ensures response.Created? && response.user.None? ==> r.result == Failure(AppError(FailedToCreateUser))
    ensures r.result.Failure? ==> r.profiles == profiles
    ensures r.result.Success? <==> response.Created? && response.user.Some?
    ensures r.result.Success? ==> r.profiles.Keys == profiles.Keys
    ensures r.result.Success? ==>
      forall k :: k in profiles && k != response.user.value.id ==> r.profiles[k] == profiles[k]
    ensures r.result.Success? && response.user.value.id in profiles ==>
      var before := profiles[response.user.value.id];
      r.profiles[response.user.value.id] ==
        before.(displayName := Some(displayName),
                inviterUserId := Some(inviterUserId),
                permissions := if WritesPermissions(permission) then permission else before.permissions)
  {
    match response
    case CreateFailed(message) => Effect(Failure(ProviderError(message)), profiles)
    case Created(None) => Effect(Failure(AppError(FailedToCreateUser)), profiles)
    case Created(Some(user)) =>
      var writes := AddUserWrites(inviterUserId, displayName, permission, user.id);
      AddUserWritesEffect(inviterUserId, displayName, permission, user.id, profiles);
      Effect(Success(()), ApplyWrites(profiles, writes))
  }

  /** The effect of the `addUser` write plan on the created user's row. */
  lemma {:induction false} AddUserWritesEffect(inviterUserId: string, displayName: string,
                                               permission: Option<string>, newUserId: string, profiles: Profiles)
    ensures newUserId in profiles ==>
      var before := profiles[newUserId];
      ApplyWrites(profiles, AddUserWrites(inviterUserId, displayName, permission, newUserId))[newUserId] ==
        before.(displayName := Some(displayName),
                inviterUserId := Some(inviterUserId),
                permissions := if WritesPermissions(permission) then permission else before.permissions)
  {
    if newUserId !in profiles {
      return;
    }
    var writes := AddUserWrites(inviterUserId, displayName, permission, newUserId);
    var first := UpdateProfile(profiles, newUserId, writes[0].patch).profiles;
    if |writes| == 2 {
      var second := UpdateProfile(first, newUserId, writes[1].patch).profiles;
      assert ApplyWrites(first, writes[1..]) == ApplyWrites(second, []);
    } else {
      assert ApplyWrites(profiles, writes) == ApplyWrites(first, []);
    }
  }

  // ---------------------------------------------------------------------------
  // getUsersWithMailboxAccess

  /** `UserWithMailboxAccessData`. */
  datatype MailboxMember = MailboxMember(
    id: string,
    displayName: string,
    email: Option<string>,
    role: string,
    keywords: seq<string>,
    permissions: string)

  /** One joined row as listed by `getUsersWithMailboxAccess`. */
  function MailboxView(row: EnhancedUser): MailboxMember {
    var access := row.access.GetOr(DefaultAccess);
    MailboxMember(row.id, Or(row.displayName, ""), row.email, access.role, access.keywords,
                  Coalesce(row.permissions, DefaultPermissions))
  }

  /** `getUsersWithMailboxAccess`: one entry per user, in order. A user
      without a profile is listed with an empty name, role "afk", no keywords
      and permissions "member"; otherwise the stored access is passed through
      (or "afk" and no keywords when there is none), missing permissions read
      as "member", and a missing or empty name reads as "". */
  function GetUsersWithMailboxAccess(users: seq<AuthUser>, profiles: Profiles): (r: seq<MailboxMember>)
    ensures |r| == |users|
    ensures forall i :: 0 <= i < |users| ==> r[i].id == users[i].id && r[i].email == users[i].email
    ensures forall i :: 0 <= i < |users| && users[i].id !in profiles ==>
      r[i] == MailboxMember(users[i].id, "", users[i].email, "afk", [], "member")
    ensures forall i :: 0 <= i < |users| && users[i].id in profiles ==>
      var p := profiles[users[i].id];
      && r[i].displayName == (if Truthy(p.displayName) then p.displayName.value else "")
      && r[i].role == (if p.access.Some? then p.access.value.role else "afk")
      && r[i].keywords == (if p.access.Some? then p.access.value.keywords else [])
      && r[i].permissions == (if p.permissions.Some? then p.permissions.value else "member")
  {
    var rows := LeftJoin(users, profiles);
    seq(|rows|, i requires 0 <= i < |rows| => MailboxView(rows[i]))
  }

  /** Every listed role is a valid role name whenever every stored role is. */
  lemma {:induction false} ListedRolesAreValid(users: seq<AuthUser>, profiles: Profiles)
    requires forall id :: id in profiles && profiles[id].access.Some? ==> IsRoleName(profiles[id].access.value.role)
    ensures forall m :: m in GetUsersWithMailboxAccess(users, profiles) ==> IsRoleName(m.role)
  {
    var r := GetUsersWithMailboxAccess(users, profiles);
    forall m | m in r
      ensures IsRoleName(m.role)
    {
      var i :| 0 <= i < |r| && r[i] == m;
      assert ParseRole(RoleName(Afk)) == Some(Afk);
    }
  }

  // ---------------------------------------------------------------------------
  // updateUserMailboxData

  /** The optional fields of an update request. */
  datatype MailboxUpdates = MailboxUpdates(
    displayName: Option<string>,
    role: Option<UserRole>,
    keywords: Option<seq<string>>)

  /** The access written by an update: each given field replaces the current
      one, which defaults to role "afk" and no keywords. */
  function MergedAccess(current: Option<Access>, updates: MailboxUpdates): Access {
    var base := current.GetOr(DefaultAccess);
    Access(if updates.role.Some? then RoleName(updates.role.value) else base.role,
           updates.keywords.GetOr(base.keywords))
  }

  /** The columns an update request assigns: the display name when given, the
      merged access when a role or keywords are given, and nothing else. */
  function MailboxPatch(current: EnhancedUser, updates: MailboxUpdates): ProfilePatch {
    ProfilePatch(
      updates.displayName,
      None,
      if updates.role.Some? || updates.keywords.Some? then Some(MergedAccess(current.access, updates)) else None,
      None)
  }

  /** The view `updateUserMailboxData` returns: each field falls back from the
      updated row to the row read before the update, then to the default. */
  function UpdatedView(current: EnhancedUser, updated: Profile): MailboxMember {
    var role := if updated.access.Some? then Some(updated.access.value.role) else None;
    MailboxMember(
      current.id,
      Or(updated.displayName, Or(current.displayName, "")),
      current.email,
      Or(role, RoleName(Afk)),
      if updated.access.Some? then updated.access.value.keywords else [],
      Or(updated.permissions, Or(current.permissions, DefaultPermissions)))
  }

  /** `updateUserMailboxData` (the mailbox id argument is unused by the source
      and left out). An unknown user throws "User not found"; a user without a
      profile row throws "Failed to update user profile"; neither writes.
      Otherwise the update succeeds and only that user's row changes: the
      display name when given, and the access when a role or keywords are
      given, each given field replacing the current one (which defaults to
      "afk" and no keywords). Permissions
      and every other column keep their values. The returned view reports the
      user's email, the new display name or else the previous one or "", the
      stored role or "afk", the stored keywords or none, and the permissions
      as they were, or "member". */
  function UpdateUserMailboxData(userId: string, updates: MailboxUpdates,
                                 users: seq<AuthUser>, profiles: Profiles): (r: Effect<MailboxMember>)
    ensures (forall i :: 0 <= i < |users| ==> users[i].id != userId) <==>
      r.result == Failure(AppError(UserNotFound))
    ensures r.result.Failure? ==> r.profiles == profiles
    ensures (exists i :: 0 <= i < |users| && users[i].id == userId) && userId !in profiles ==>
      r.result == Failure(AppError(FailedToUpdateProfile))
    ensures (exists i :: 0 <= i < |users| && users[i].id == userId) && userId in profiles ==> r.result.Success?
    ensures r.result.Success? ==> userId in profiles && r.profiles.Keys == profiles.Keys
    ensures r.result.Success? ==> forall k :: k in profiles && k != userId ==> r.profiles[k] == profiles[k]
    ensures r.result.Success? ==>
      var before := profiles[userId];
      var after := r.profiles[userId];
      && after.permissions == before.permissions
      && after.lastMailboxSlug == before.lastMailboxSlug
      && after.inviterUserId == before.inviterUserId
      && after.displayName == (if updates.displayName.Some? then updates.displayName else before.displayName)
      && (updates.role.None? && updates.keywords.None? ==> after.access == before.access)
      && (updates.role.Some? || updates.keywords.Some? ==>
            var base := before.access.GetOr(DefaultAccess);
            after.access == Some(Access(if updates.role.Some? then RoleName(updates.role.value) else base.role,
                                        if updates.keywords.Some? then updates.keywords.value else base.keywords)))
    ensures r.result.Success? ==>
      var view := r.result.value;
      var after := r.profiles[userId];
      && view.id == userId
      && (exists i :: 0 <= i < |users| && users[i].id == userId && view.email == users[i].email)
      && view.displayName == (if Truthy(after.displayName) then after.displayName.value
                              else if Truthy(profiles[userId].displayName) then profiles[userId].displayName.value
                              else "")
      && view.permissions == (if Truthy(profiles[userId].permissions) then profiles[userId].permissions.value else "member")
      && view.role == (if after.access.Some? && after.access.value.role != "" then after.access.value.role else "afk")
      && view.keywords == (if after.access.Some? then after.access.value.keywords else [])
  {
    match FindUser(users, userId)
    case None => Effect(Failure(AppError(UserNotFound)), profiles)
    case Some(user) =>
      var current := Enhance(user, profiles);
      var update := UpdateProfile(profiles, userId, MailboxPatch(current, updates));
      match update.returned
      case None => Effect(Failure(AppError(FailedToUpdateProfile)), update.profiles)
      case Some(updated) => Effect(Success(UpdatedView(current, updated)), update.profiles)
  }

  /** After a successful update, the returned view is the user's entry in
      `getUsersWithMailboxAccess`, provided no empty string is involved: the
      new display name is not "", the stored permissions are not "", and the
      resulting role is not "". (With an empty string, the two views apply
      `||` and `??` differently.) */
  lemma {:induction false} UpdatedViewMatchesListing(userId: string, updates: MailboxUpdates,
                                                     users: seq<AuthUser>, profiles: Profiles, i: nat)
    requires i < |users| && users[i].id == userId
    requires forall j :: 0 <= j < i ==> users[j].id != userId
    requires userId in profiles
    requires updates.displayName != Some("")
    requires profiles[userId].permissions != Some("")
    requires updates.role.Some? || profiles[userId].access.None? || profiles[userId].access.value.role != ""
    ensures UpdateUserMailboxData(userId, updates, users, profiles).result ==
      Success(GetUsersWithMailboxAccess(users, UpdateUserMailboxData(userId, updates, users, profiles).profiles)[i])
  {
    FindFirstUser(users, userId, i);
    var user := users[i];
    var current := Enhance(user, profiles);
    var updated := ApplyPatch(profiles[userId], MailboxPatch(current, updates));
    var after := profiles[userId := updated];
    assert UpdateUserMailboxData(userId, updates, users, profiles) == Effect(Success(UpdatedView(current, updated)), after);
    assert GetUsersWithMailboxAccess(users, after)[i] == MailboxView(Enhance(user, after));
    UpdatedViewMatchesRow(user, updates, profiles);
  }

  /** The field-by-field agreement behind `UpdatedViewMatchesListing`. */
  lemma UpdatedViewMatchesRow(user: AuthUser, updates: MailboxUpdates, profiles: Profiles)
    requires user.id in profiles
    requires updates.displayName != Some("")
    requires profiles[user.id].permissions != Some("")
    requires updates.role.Some? || profiles[user.id].access.None? || profiles[user.id].access.value.role != ""
    ensures var current := Enhance(user, profiles);
      var updated := ApplyPatch(profiles[user.id], MailboxPatch(current, updates));
      UpdatedView(current, updated) == MailboxView(Enhance(user, profiles[user.id := updated]))
  {
    var current := Enhance(user, profiles);
    var patch := MailboxPatch(current, updates);
    var updated := ApplyPatch(profiles[user.id], patch);
    if patch.access.Some? {
      assert updated.access.value.role != "";
    }
  }

  lemma {:induction false} FindFirstUser(users: seq<AuthUser>, id: string, i: nat)
    requires i < |users| && users[i].id == id
    requires forall j :: 0 <= j < i ==> users[j].id != id
    ensures FindUser(users, id) == Some(users[i])
  {
    if i > 0 {
      FindFirstUser(users[1..], id, i - 1);
    }
  }

  /** Setting the display name to "" stores "" but the returned view still
      shows the previous name, because the view falls back with `||` from the
      updated row to the row read before the update. */
  lemma ClearedNameShowsPreviousName(userId: string, updates: MailboxUpdates,
                                     users: seq<AuthUser>, profiles: Profiles)
    requires exists i :: 0 <= i < |users| && users[i].id == userId
    requires userId in profiles && Truthy(profiles[userId].displayName)
    requires updates.displayName == Some("")
    ensures var r := UpdateUserMailboxData(userId, updates, users, profiles);
      && r.profiles[userId].displayName == Some("")
      && r.result.Success?
      && r.result.value.displayName == profiles[userId].displayName.value
  {
  }
}
