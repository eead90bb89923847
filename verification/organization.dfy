/** The organization procedures of trpc/router/organization.ts: listing the
    members with a display name, and inviting a member, which delegates to
    `addUser`. Session checks and input validation happen before these run
    and are not part of them. */
module Organization {
  import opened Wrappers
  import opened Js
  import opened Schema
  import UserData

  /** One entry of `getMembers`. */
  datatype Member = Member(id: string, displayName: string, email: Option<string>)

  /** The input of `addMember` once validated. */
  datatype AddMemberInput = AddMemberInput(email: string, displayName: string, permissions: Option<string>)

  /** `getMembers`: one entry per user, in order, with the id and email as
      stored, and the display name `displayName || email || id` of the user
      joined with its profile (no trimming; empty strings fall through). */
  function GetMembers(users: seq<AuthUser>, profiles: Profiles): (r: seq<Member>)
    ensures |r| == |users|
    ensures forall i :: 0 <= i < |users| ==> r[i].id == users[i].id && r[i].email == users[i].email
    ensures forall i :: 0 <= i < |users| ==>
      var p := ProfileOf(profiles, users[i].id);
      var name := if p.Some? then p.value.displayName else None;
      r[i].displayName == (if Truthy(name) then name.value
                           else if Truthy(users[i].email) then users[i].email.value
                           else users[i].id)
  {
    var rows := LeftJoin(users, profiles);
    seq(|rows|, i requires 0 <= i < |rows| =>
      Member(rows[i].id, Or(rows[i].displayName, Or(rows[i].email, rows[i].id)), rows[i].email))
  }

  /** A member's display name is empty only when its id is. */
  lemma {:induction false} MemberNamesNonEmpty(users: seq<AuthUser>, profiles: Profiles)
    ensures forall m :: m in GetMembers(users, profiles) && m.id != "" ==> m.displayName != ""
  {
    var r := GetMembers(users, profiles);
    forall m | m in r && m.id != "" ensures m.displayName != "" {
      var i :| 0 <= i < |r| && r[i] == m;
    }
  }

  /** A single user whose profile name is "Test User" is listed as exactly
      that user with that name and its own email. */
  lemma SingleUserWithProfileName(user: AuthUser, profile: Profile)
    requires profile.displayName == Some("Test User")
    ensures GetMembers([user], map[user.id := profile]) == [Member(user.id, "Test User", user.email)]
  {
    var r := GetMembers([user], map[user.id := profile]);
    assert r[0] == Member(user.id, "Test User", user.email);
  }

  /** `addMember`: `addUser` with the caller's id as the inviter and the
      input's email, display name and permissions unchanged. */
  function AddMember(callerId: string, input: AddMemberInput, response: UserData.CreateUserResponse,
                     profiles: Profiles): (r: UserData.Effect<()>)
    ensures r == UserData.AddUser(callerId, input.email, input.displayName, input.permissions, response, profiles)
    ensures r.result.Success? <==> response.Created? && response.user.Some?
    ensures r.result.Failure? ==> r.profiles == profiles
    ensures r.result.Success? ==>
      forall k :: k in profiles && k != response.user.value.id ==> r.profiles[k] == profiles[k]
    ensures r.result.Success? && response.user.value.id in profiles ==>
      var row := r.profiles[response.user.value.id];
      && row.inviterUserId == Some(callerId)
      && row.displayName == Some(input.displayName)
      && row.permissions == (if UserData.WritesPermissions(input.permissions) then input.permissions
                             else profiles[response.user.value.id].permissions)
  {
    UserData.AddUser(callerId, input.email, input.displayName, input.permissions, response, profiles)
  }

  /** An invitation without permissions writes no permissions: the new
      user's row keeps its stored permissions, and the only write sets the
      display name and the caller as inviter. */
  lemma AddMemberWithoutPermissions(callerId: string, input: AddMemberInput,
                                    response: UserData.CreateUserResponse, profiles: Profiles)
    requires input.permissions.None?
    ensures response.Created? && response.user.Some? ==>
      |UserData.AddUserWrites(callerId, input.displayName, input.permissions, response.user.value.id)| == 1
    ensures var r := AddMember(callerId, input, response, profiles);
      r.result.Success? && response.user.value.id in profiles ==>
        var before := profiles[response.user.value.id];
        r.profiles[response.user.value.id] ==
          before.(displayName := Some(input.displayName), inviterUserId := Some(callerId))
  {
  }
}
