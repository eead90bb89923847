/** Display-name and permission helpers of lib/auth/authUtils.ts: pure
    functions of a user record and its optional profile. */
module AuthUtils {
  import opened Wrappers
  import opened Js
  import opened Schema

  /** The profile's display name, when the profile and the name are present. */
  function ProfileName(profile: Option<Profile>): Option<string> {
    if profile.Some? then profile.value.displayName else None
  }

  /** `hasDisplayName`: true iff there is a profile whose display name holds at
      least one non-whitespace character. The user argument plays no part. */
  function HasDisplayName(user: Option<AuthUser>, profile: Option<Profile>): (r: bool)
    ensures r <==> profile.Some? && profile.value.displayName.Some?
                   && exists i :: 0 <= i < |profile.value.displayName.value|
                                  && !IsWhitespace(profile.value.displayName.value[i])
  {
    Truthy(ProfileName(profile)) && Trim(ProfileName(profile).value) != ""
  }

  /** `getFullName`: the trimmed profile name when it is not blank; otherwise
      the email whenever it is not null, even when it is the empty string;
      the id only when the email is null. */
  function FullName(user: AuthUser, profile: Option<Profile>): (r: string)
    ensures HasDisplayName(Some(user), profile) ==>
      && r == Trim(profile.value.displayName.value)
      && r != []
      && !IsWhitespace(r[0]) && !IsWhitespace(r[|r| - 1])
    ensures !HasDisplayName(Some(user), profile) && user.email.Some? ==> r == user.email.value
    ensures !HasDisplayName(Some(user), profile) && user.email.None? ==> r == user.id
  {
    var name := ProfileName(profile);
    if Truthy(name) && Trim(name.value) != "" then Trim(name.value)
    else Coalesce(user.email, user.id)
  }

  /** `getFirstName`: the full name up to its first space. It is a prefix of
      the full name without any space, and all of it when it has none. */
  function FirstName(user: AuthUser, profile: Option<Profile>): (r: string)
    ensures r <= FullName(user, profile)
    ensures ' ' !in r
    ensures ' ' !in FullName(user, profile) ==> r == FullName(user, profile)
    ensures |r| < |FullName(user, profile)| ==> FullName(user, profile)[|r|] == ' '
  {
    FirstToken(FullName(user, profile))
  }

  /** `getDisplayNameFromEnhanced`: the trimmed display name when it is not
      blank, else the email when it is non-empty, else the id. Unlike
      `FullName`, an empty email falls through to the id. */
  function DisplayNameFromEnhanced(user: EnhancedUser): (r: string)
    ensures user.displayName.Some? && !Blank(user.displayName.value) ==>
      r == Trim(user.displayName.value) && r != []
    ensures (user.displayName.None? || Blank(user.displayName.value)) && Truthy(user.email) ==>
      r == user.email.value
    ensures (user.displayName.None? || Blank(user.displayName.value)) && !Truthy(user.email) ==>
      r == user.id
  {
    var trimmed := if user.displayName.Some? then Some(Trim(user.displayName.value)) else None;
    Or(trimmed, Or(user.email, user.id))
  }

  /** `isAdminUser`: true iff the permissions are exactly "admin". */
  function IsAdminUser(user: EnhancedUser): (r: bool)
    ensures r <==> user.permissions == Some("admin")
  {
    user.permissions.Some? && user.permissions.value == "admin"
  }

  /** The two display-name chains agree on a user and its joined profile,
      except when there is no usable profile name and the email is the empty
      string: then `getFullName` gives "" and `getDisplayNameFromEnhanced`
      gives the id. */
  lemma FullNameVersusEnhanced(user: AuthUser, profiles: Profiles)
    ensures var profile := ProfileOf(profiles, user.id);
      var full := FullName(user, profile);
      var enhanced := DisplayNameFromEnhanced(Enhance(user, profiles));
      && (!HasDisplayName(Some(user), profile) && user.email == Some("") ==> full == "" && enhanced == user.id)
      && (HasDisplayName(Some(user), profile) || user.email != Some("") ==> full == enhanced)
  {
    var profile := ProfileOf(profiles, user.id);
    var row := Enhance(user, profiles);
    if HasDisplayName(Some(user), profile) {
      assert !Blank(row.displayName.value);
    } else if row.displayName.Some? {
      assert Blank(row.displayName.value);
    }
  }
}
